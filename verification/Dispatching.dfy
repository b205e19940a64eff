/** Which task runs next, and what becomes of the one that ran: every switch, wait, start
    and end, stated by task index. */
module Dispatching {
  import opened Base
  import opened UserSpaces
  import opened Processes
  import opened Kernel
  import opened Invariants
  import opened WaitSteps
  import opened ExitSteps
  import opened Runs
  import opened Transitions
  import opened Progress
  import opened Reporting
  import opened CallResults

  // ----- the next task -----

  /** `j` is the ready task nearest after `i`, going round. */
  ghost predicate Nearest(tasks: seq<Task>, i: nat, j: nat) {
    && i < |tasks| && j < |tasks| && tasks[j].state == Ready
    && forall x | 0 <= x < |tasks| && tasks[x].state == Ready :: Distance(i, j, |tasks|) <= Distance(i, x, |tasks|)
  }

  ghost predicate NoneReady(tasks: seq<Task>) {
    forall x | 0 <= x < |tasks| :: tasks[x].state != Ready
  }

  /** There is exactly one nearest ready task, unless none is ready. */
  lemma NearestExists(tasks: seq<Task>, i: nat) returns (j: nat)
    requires i < |tasks| && !NoneReady(tasks)
    ensures Nearest(tasks, i, j) && forall j': nat | Nearest(tasks, i, j') :: j' == j
  {
    NextReadyFinds(tasks, i);
    j := NextReady(tasks, i).value;
  }

  lemma NextReadyIsNearest(tasks: seq<Task>, i: nat, j: nat)
    requires Nearest(tasks, i, j)
    ensures NextReady(tasks, i) == Some(j)
  {
    hide NextReady;
    NextReadyFinds(tasks, i);
    var r := NextReady(tasks, i).value;
    assert Distance(i, r, |tasks|) == Distance(i, j, |tasks|);
  }

  /** `k'` is `k` with these tasks, of which `j` now runs, in its own address space. */
  ghost predicate RunsTask(k: Kernel, tasks: seq<Task>, j: nat, k': Kernel) {
    && j < |tasks|
    && k' == k.(tasks := tasks[j := tasks[j].(state := Running)], current := Some(j),
                cr3 := k'.cr3, cachedRoot := Some(k'.cr3))
    && match tasks[j].pid
       case None => k'.cr3 == k.lim.kernelRoot
       case Some(p) => p in k.procs && k'.cr3 == k.procs[p].root
  }

  lemma DispatchRuns(k: Kernel, tasks: seq<Task>, j: nat)
    requires j < |tasks| && (tasks[j].pid.Some? ==> tasks[j].pid.value in k.procs)
    requires k.cachedRoot.Some? ==> k.cachedRoot.value == k.cr3
    ensures RunsTask(k, tasks, j, Dispatch(k.(tasks := tasks), j))
  {
  }

  lemma ReadyCanBeDispatched(k: Kernel, j: nat)
    requires Inv(k) && j < |k.tasks| && k.tasks[j].state == Ready
    ensures k.tasks[j].pid.Some? ==> k.tasks[j].pid.value in k.procs
    ensures k.cachedRoot.Some? ==> k.cachedRoot.value == k.cr3
  {
    hide FamilyOk, OrphansAlive, WaitsOk, FilesOk, SpacesOk, HeapsOk, CurrentOk;
  }

  // ----- switches -----

  /** The events that ask for another task to run. */
  predicate AsksToSwitch(k: Kernel, e: Event) {
    k.current.Some? && (e.Yield? || e.SyscallYield? || (e.Timer? && k.preemption))
  }

  /** What the running task is left with. */
  function Interrupted(t: Task, e: Event): Task {
    if e.SyscallYield? then t.(rax := 0) else t
  }

  lemma SwitchExact(k: Kernel, t: Task)
    requires Inv(k) && HasCurrent(k) && t.state == Running && t.pid == k.tasks[k.current.value].pid
    ensures
      var i, k1 := k.current.value, k.(tasks := k.tasks[k.current.value := t]);
      && (NoneReady(k.tasks) ==> Switch(k1) == k1)
      && (forall j: nat | Nearest(k.tasks, i, j) :: RunsTask(k, k.tasks[i := t.(state := Ready)], j, Switch(k1)))
  {
    hide Inv, NextReady, Dispatch, RunsTask;
    var i, k1 := k.current.value, k.(tasks := k.tasks[k.current.value := t]);
    CurrentRuns(k);
    NextReadyFinds(k1.tasks, i);
    forall j: nat | Nearest(k.tasks, i, j)
      ensures RunsTask(k, k.tasks[i := t.(state := Ready)], j, Switch(k1))
    {
      assert Nearest(k1.tasks, i, j);
      NextReadyIsNearest(k1.tasks, i, j);
      ReadyCanBeDispatched(k, j);
      DispatchRuns(k, k.tasks[i := t.(state := Ready)], j);
      assert SetState(k1, i, Ready) == k.(tasks := k.tasks[i := t.(state := Ready)]);
    }
  }

  /** A yield, or the timer with preemption on, runs the nearest ready task and leaves the
      one that ran ready, registers and all; if none is ready it goes on. Otherwise
      nothing happens. */
  lemma SwitchResult(k: Kernel, e: Event, k': Kernel)
    requires Inv(k) && Next(k, e, k') && (e.Timer? || e.Yield? || e.SyscallYield?)
    ensures !AsksToSwitch(k, e) ==> k' == k
    ensures AsksToSwitch(k, e) ==>
              && HasCurrent(k)
              && var i, t := k.current.value, Interrupted(k.tasks[k.current.value], e);
                 && (NoneReady(k.tasks) ==> k' == k.(tasks := k.tasks[i := t]))
                 && (forall j: nat | Nearest(k.tasks, i, j) :: RunsTask(k, k.tasks[i := t.(state := Ready)], j, k'))
  {
    hide Inv, Switch, RunsTask, Nearest, NoneReady;
    CurrentFits(k);
    if k.current.None? {
      assert Switch(k) == k by { IdleSwitch(k); }
    } else {
      CurrentRuns(k);
      var i, t := k.current.value, Interrupted(k.tasks[k.current.value], e);
      SwitchExact(k, t);
      assert k.tasks[i := k.tasks[i]] == k.tasks;
    }
  }

  lemma IdleSwitch(k: Kernel)
    requires k.current.None?
    ensures Switch(k) == k
  {
  }

  // ----- starting -----

  /** `run` starts the ready task with the lowest index, or returns at once if there is
      none. */
  lemma RunResult(k: Kernel, e: Event, k': Kernel)
    requires Inv(k) && Next(k, e, k') && e.Run?
    ensures NoneReady(k.tasks) ==> k' == k
    ensures forall j: nat | j < |k.tasks| && k.tasks[j].state == Ready
                            && forall x | 0 <= x < j :: k.tasks[x].state != Ready
                      :: RunsTask(k, k.tasks, j, k')
  {
    hide Inv, FirstReady, Dispatch, RunsTask;
    FirstReadyFinds(k.tasks);
    forall j: nat | j < |k.tasks| && k.tasks[j].state == Ready && forall x | 0 <= x < j :: k.tasks[x].state != Ready
      ensures RunsTask(k, k.tasks, j, k')
    {
      ReadyCanBeDispatched(k, j);
      assert FirstReady(k.tasks) == Some(j);
      var k1 := k.(cachedRoot := Some(k.cr3));
      DispatchRuns(k1, k.tasks, j);
      assert k1.(tasks := k.tasks) == k1;
      SameRun(k, k1, k.tasks, j, k');
    }
  }

  /** The cache is overwritten by the dispatch. */
  lemma SameRun(k: Kernel, k1: Kernel, tasks: seq<Task>, j: nat, k': Kernel)
    requires k1 == k.(cachedRoot := k1.cachedRoot) && RunsTask(k1, tasks, j, k')
    ensures RunsTask(k, tasks, j, k')
  {
  }

  // ----- ends -----

  /** When a task ends, the nearest task that can run after that, a parent woken by it
      included, runs; control returns to main exactly when there is none. */
  lemma EndPicksNearest(k: Kernel, e: Event, k': Kernel)
    requires Inv(k) && Next(k, e, k') && EndsTask(e)
    ensures |k'.tasks| == |k.tasks| && k.current.value < |k.tasks|
    ensures k'.current.None? <==> forall x | 0 <= x < |k'.tasks| :: !CanRun(k'.tasks[x])
    ensures k'.current.Some? ==>
              && k'.current.value < |k'.tasks| && k'.tasks[k'.current.value].state == Running
              && forall x | 0 <= x < |k'.tasks| && CanRun(k'.tasks[x]) ::
                   Distance(k.current.value, k'.current.value, |k.tasks|) <= Distance(k.current.value, x, |k.tasks|)
  {
    hide Inv, AfterFinish, PickNext, NoneRunning, Core;
    var i := k.current.value;
    match e
    case Exit(code) =>
      AfterFinishCore(k, Some(code), None);
      PickIsNearest(AfterFinish(k, Some(code), None), i);
    case UserFault(info) =>
      AfterFinishCore(k, None, Some(info));
      PickIsNearest(AfterFinish(k, None, Some(info)), i);
    case KernelTaskReturns =>
      OnlyCurrentRuns(k, Finished);
      PickIsNearest(SetState(k, i, Finished), i);
  }

  lemma PickIsNearest(k: Kernel, i: nat)
    requires NoneRunning(k.tasks) && i < |k.tasks|
    ensures
      var k' := PickNext(k, i);
      && |k'.tasks| == |k.tasks|
      && (k'.current.None? <==> forall x | 0 <= x < |k'.tasks| :: !CanRun(k'.tasks[x]))
      && (k'.current.Some? ==>
            && k'.current.value < |k'.tasks| && k'.tasks[k'.current.value].state == Running
            && forall x | 0 <= x < |k'.tasks| && CanRun(k'.tasks[x]) ::
                 Distance(i, k'.current.value, |k.tasks|) <= Distance(i, x, |k.tasks|))
  {
    hide NextReady;
    NextReadyFinds(k.tasks, i);
  }

  // ----- waiting -----

  /** The caller may wait for `child`: it is its own, and where a status is wanted the
      eight bytes can be written. */
  ghost predicate MayWaitFor(k: Kernel, p: nat, child: nat, address: nat) {
    && p in k.procs && child != 0 && child in k.procs[p].children
    && (address != 0 ==> k.procs[p].root in k.spaces && Writable(k.spaces[k.procs[p].root], address, 8))
  }

  /** The status pointer a blocked task remembers. */
  function WantedAt(address: nat): Option<nat> {
    if address == 0 then None else Some(address)
  }

  lemma MayWaitIsAllowed(k: Kernel, child: nat, address: nat)
    requires Inv(k) && CurrentPid(k).Some?
    ensures CurrentPid(k).value in k.procs
    ensures MayWaitFor(k, CurrentPid(k).value, child, address) <==> WaitAllowed(k, CurrentPid(k).value, child, StatusAddress(address))
  {
    hide Inv, RangeOk, Writable;
    CallerSpace(k);
    WritableIsOk(SpaceOf(k, CurrentPid(k).value), address, 8);
  }

  /** The refusals of waitpid, in the order of its checks. */
  lemma WaitRefused(k: Kernel, e: Event, k': Kernel)
    requires Inv(k) && Next(k, e, k') && e.Wait?
    requires CurrentPid(k).None? || e.options > 1 || !MayWaitFor(k, CurrentPid(k).value, e.child, e.statusAddress)
    ensures HasCurrent(k)
    ensures k' == Resumed(k,
                    if CurrentPid(k).None? then ECHILD
                    else if e.options > 1 then EINVAL
                    else if e.child == 0 || CurrentPid(k).value !in k.procs || e.child !in k.procs[CurrentPid(k).value].children then ECHILD
                    else EFAULT)
  {
    hide Inv, RangeOk, CompleteWait, PickNext, MayWaitFor;
    if CurrentPid(k).Some? {
      MayWaitIsAllowed(k, e.child, e.statusAddress);
    }
  }

  lemma ChildIsListed(k: Kernel, p: nat, child: nat)
    requires Inv(k) && p in k.procs && child in k.procs[p].children
    ensures child in k.procs
  {
    hide PidsOk, OrphansAlive, WaitsOk, FilesOk, SpacesOk, HeapsOk, CurrentOk, ListsDistinct, ParentsSound;
  }

  /** On a living child: option 1 (WNOHANG) returns 0 at once and changes nothing else;
      option 0 blocks the caller on the child, and the nearest ready task runs. There
      always is one. */
  lemma WaitOnLiving(k: Kernel, e: Event, k': Kernel)
    requires Inv(k) && Next(k, e, k') && e.Wait? && e.options <= 1 && CurrentPid(k).Some?
    requires MayWaitFor(k, CurrentPid(k).value, e.child, e.statusAddress)
    requires e.child in k.procs && k.procs[e.child].state.Alive?
    ensures e.options == 1 ==> k' == Resumed(k, 0)
    ensures
      var i := k.current.value;
      var tasks := k.tasks[i := k.tasks[i].(state := Blocked(e.child, WantedAt(e.statusAddress)))];
      e.options == 0 ==>
        !NoneReady(k.tasks) && forall j: nat | Nearest(k.tasks, i, j) :: j != i && RunsTask(k, tasks, j, k')
  {
    hide Inv, RangeOk, CompleteWait, PickNext, MayWaitFor, NextReady, RunsTask;
    MayWaitIsAllowed(k, e.child, e.statusAddress);
    if e.options == 0 {
      var i := k.current.value;
      var blocked := SetState(k, i, Blocked(e.child, StatusAddress(e.statusAddress)));
      assert k' == PickNext(blocked, i);
      BlockingAlwaysSwitches(k, e.child, StatusAddress(e.statusAddress));
      CurrentRuns(k);
      BlockedPicks(k, i, blocked);
    }
  }

  lemma BlockedPicks(k: Kernel, i: nat, blocked: Kernel)
    requires Inv(k) && i < |k.tasks| && k.tasks[i].state == Running
    requires blocked == k.(tasks := blocked.tasks) && |blocked.tasks| == |k.tasks| && blocked.tasks[i].state.Blocked?
    requires blocked.tasks == k.tasks[i := blocked.tasks[i]] && NextReady(blocked.tasks, i).Some?
    ensures !NoneReady(k.tasks)
    ensures forall j: nat | Nearest(k.tasks, i, j) :: j != i && RunsTask(k, blocked.tasks, j, PickNext(blocked, i))
  {
    hide Inv, NextReady, RunsTask, Dispatch;
    NextReadyFinds(blocked.tasks, i);
    assert k.tasks[NextReady(blocked.tasks, i).value].state == Ready;
    forall j: nat | Nearest(k.tasks, i, j) ensures j != i && RunsTask(k, blocked.tasks, j, PickNext(blocked, i)) {
      assert Nearest(blocked.tasks, i, j);
      NextReadyIsNearest(blocked.tasks, i, j);
      ReadyCanBeDispatched(k, j);
      DispatchRuns(k, blocked.tasks, j);
    }
  }

  /** On a child that has ended, with either option: the caller goes on with its pid, the
      status is stored if wanted, and the child is gone from the table and from the
      caller's list. */
  lemma WaitOnEnded(k: Kernel, e: Event, k': Kernel)
    requires Inv(k) && Next(k, e, k') && e.Wait? && e.options <= 1 && CurrentPid(k).Some?
    requires MayWaitFor(k, CurrentPid(k).value, e.child, e.statusAddress) && IsZombie(k.procs, e.child)
    ensures
      var p := CurrentPid(k).value;
      && p in k.procs && k.procs[p].root in k.spaces && k.procs[p].root in k'.spaces
      && k' == Resumed(k, e.child).(procs := k'.procs, spaces := k.spaces[k.procs[p].root := k'.spaces[k.procs[p].root]])
      && (e.statusAddress == 0 ==> k'.spaces == k.spaces)
      && (e.statusAddress != 0 ==>
            StoredAt(k.spaces[k.procs[p].root], k'.spaces[k.procs[p].root], e.statusAddress, StatusBytes(k.procs[e.child].state.exit)))
      && k'.procs.Keys == k.procs.Keys - {e.child}
      && (forall q | q in k'.procs ::
            k'.procs[q] == if q == p then k.procs[p].(children := k'.procs[p].children) else k.procs[q])
      && (p in k'.procs ==> forall c :: c in k'.procs[p].children <==> c in k.procs[p].children && c != e.child)
  {
    hide Inv, RangeOk, MayWaitFor, PickNext, CopyOut, StatusBytes, StoredAt, StoredUpTo, Writable;
    MayWaitIsAllowed(k, e.child, e.statusAddress);
    CallerSpace(k);
    var p := CurrentPid(k).value;
    CopyOutStores(SpaceOf(k, p), e.statusAddress, StatusBytes(k.procs[e.child].state.exit));
    WritableIsOk(SpaceOf(k, p), e.statusAddress, 8);
  }
}

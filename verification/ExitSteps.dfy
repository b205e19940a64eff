/** Exits and faults keep the invariant; what an exit does to a waiting parent. */
module ExitSteps {
  import opened Base
  import opened UserSpaces
  import opened UserLayout
  import opened Files
  import opened Processes
  import opened Kernel
  import opened Invariants
  import opened Preservation
  import opened WaitSteps

  // ----- the process becomes a zombie -----

  lemma ExitPids(tasks: seq<Task>, procs: Procs, n: nat, lim: Limits, i: nat, t: Task, pid: nat, exit: ProcessExit,
          procs': Procs)
    requires PidsOk(tasks, procs, n, lim) && i < |tasks| && tasks[i].pid == Some(pid)
    requires pid in procs && procs[pid].mainTask == i && t.pid == Some(pid) && t.Terminal()
    requires AfterExit(procs, pid, exit, procs')
    ensures PidsOk(tasks[i := t], procs', n, lim)
  {
    var tasks' := tasks[i := t];
    forall p | p in procs' ensures MainTaskOk(tasks', procs'[p], p, n) {
      assert Lookup(procs', p) == Some(procs'[p]);
      assert MainTaskOk(tasks, procs[p], p, n);
    }
    forall j | 0 <= j < |tasks'| && tasks'[j].pid.Some? && !tasks'[j].Terminal()
      ensures tasks'[j].pid.value in procs' && procs'[tasks'[j].pid.value].mainTask == j
    {
      var q := tasks[j].pid.value;
      assert MainTaskOk(tasks, procs[q], q, n);
      assert Lookup(procs', q).Some?;
    }
  }

  /** What a waiter relies on, apart from its child being alive. */
  ghost predicate WaiterOk(t: Task, procs: Procs, spaces: map<nat, UserSpace>) {
    && t.state.Blocked? && t.pid.Some? && t.pid.value in procs
    && t.state.child in procs[t.pid.value].children
    && (t.state.statusPtr.Some? ==>
          procs[t.pid.value].root in spaces
          && RangeOk(spaces[procs[t.pid.value].root], t.state.statusPtr.value, STATUS_SIZE, Write))
  }

  /** Waiters other than the exiting process keep what they rely on. */
  lemma ExitWaiter(tasks: seq<Task>, procs: Procs, spaces: map<nat, UserSpace>, n: nat, lim: Limits, j: nat,
          pid: nat, exit: ProcessExit, procs': Procs)
    requires PidsOk(tasks, procs, n, lim) && j < |tasks| && tasks[j].state.Blocked? && WaitOk(tasks[j], procs, spaces)
    requires pid in procs && tasks[j].pid != Some(pid) && AfterExit(procs, pid, exit, procs')
    ensures WaiterOk(tasks[j], procs', spaces)
    ensures tasks[j].state.child != pid ==> WaitOk(tasks[j], procs', spaces)
  {
    hide RangeOk;
    var q, c := tasks[j].pid.value, tasks[j].state.child;
    assert MainTaskOk(tasks, procs[q], q, n);
    assert Lookup(procs', q).Some?;
    assert c != pid ==> Lookup(procs', c).Some?;
  }

  lemma ExitWaits(tasks: seq<Task>, procs: Procs, spaces: map<nat, UserSpace>, n: nat, lim: Limits, i: nat, t: Task,
          pid: nat, exit: ProcessExit, procs': Procs)
    requires PidsOk(tasks, procs, n, lim) && WaitsOk(tasks, procs, spaces, None)
    requires i < |tasks| && tasks[i].pid == Some(pid) && t.Terminal()
    requires pid in procs && AfterExit(procs, pid, exit, procs')
    ensures WaitsOk(tasks[i := t], procs', spaces, Some(pid))
    ensures forall j | 0 <= j < |tasks| && BlockedOn(tasks[i := t][j], pid) :: WaiterOk(tasks[j], procs', spaces)
  {
    forall j | 0 <= j < |tasks| && tasks[i := t][j].state.Blocked?
      ensures WaiterOk(tasks[j], procs', spaces)
      ensures tasks[j].state.child != pid ==> WaitOk(tasks[j], procs', spaces)
    {
      assert WaitOk(tasks[j], procs, spaces);
      ExitWaiter(tasks, procs, spaces, n, lim, j, pid, exit, procs');
    }
  }

  lemma {:induction false} CloseAllKeepsSlots(fds: FdTable, files: FileSlots, lim: Limits)
    requires SlotsOk(files, lim)
    ensures SlotsOk(CloseAllFiles(fds, files), lim)
  {
    if fds != [] {
      CloseAllKeepsSlots(fds[..|fds| - 1], files, lim);
    }
  }

  /** An exit gives back exactly the references the process held; what it takes from
      the table besides held none. */
  lemma ExitRefs(procs: Procs, n: nat, files: FileSlots, lim: Limits, pid: nat, exit: ProcessExit, procs': Procs,
          s: nat)
    requires FilesOk(procs, n, files, lim) && pid in procs && pid < n && AfterExit(procs, pid, exit, procs')
    ensures Refs(procs', n, s) + CountFds(procs[pid].fds, s) == Refs(procs, n, s)
  {
    forall q: nat | q != pid ensures HeldBy(procs', q, s) == HeldBy(procs, q, s) {
      assert Lookup(procs', q) == Orphaned(procs, procs[pid].children, q);
      if q in procs && procs[q].state.Zombie? {
        CountOfNone(procs[q].fds, s);
      }
    }
    assert Lookup(procs', pid).Some?;
    CountOfNone(procs'[pid].fds, s);
    RefsChange(procs, procs', n, pid, s);
  }

  lemma ExitFiles(procs: Procs, n: nat, files: FileSlots, lim: Limits, pid: nat, exit: ProcessExit, procs': Procs)
    requires FilesOk(procs, n, files, lim) && pid in procs && pid < n && AfterExit(procs, pid, exit, procs')
    ensures FilesOk(procs', n, CloseAllFiles(procs[pid].fds, files), lim)
  {
    var fds := procs[pid].fds;
    CloseAllKeepsSlots(fds, files, lim);
    forall s: nat ensures CountFds(fds, s) <= RefCount(files, s) {
      HeldAtMost(procs, n, pid, s);
      assert Refs(procs, n, s) == RefCount(files, s);
    }
    forall s: nat ensures Refs(procs', n, s) == RefCount(CloseAllFiles(fds, files), s) {
      ExitRefs(procs, n, files, lim, pid, exit, procs', s);
      CloseAllCounts(fds, files, s);
      assert Refs(procs, n, s) == RefCount(files, s);
    }
    forall p | p in procs'
      ensures |procs'[p].fds| == lim.fds
      ensures procs'[p].state.Zombie? ==> forall fd | 0 <= fd < |procs'[p].fds| :: procs'[p].fds[fd].None?
    {
      assert Lookup(procs', p) == Some(procs'[p]);
    }
  }

  lemma ExitSpaces(procs: Procs, spaces: map<nat, UserSpace>, unclaimed: set<nat>, kernelRoot: nat, pid: nat,
          exit: ProcessExit, procs': Procs)
    requires SpacesOk(procs, spaces, unclaimed, kernelRoot) && HeapsOk(procs, spaces)
    requires pid in procs && AfterExit(procs, pid, exit, procs')
    ensures SpacesOk(procs', spaces, unclaimed, kernelRoot) && HeapsOk(procs', spaces)
  {
    hide HeapOk, HeapMapped;
    forall p | p in procs' ensures p in procs && procs'[p].root == procs[p].root && procs'[p].heap == procs[p].heap {
      assert Lookup(procs', p) == Some(procs'[p]);
    }
  }

  /** The kernel once task `i` is terminal and its process a zombie. */
  ghost function Exiting(k: Kernel, i: nat, t: Task, exit: ProcessExit): Kernel
    requires i < |k.tasks| && k.tasks[i].pid.Some? && k.tasks[i].pid.value in k.procs
  {
    var pid := k.tasks[i].pid.value;
    k.(tasks := k.tasks[i := t],
       procs := MarkExited(k.procs, pid, exit),
       files := CloseAllFiles(k.procs[pid].fds, k.files))
  }

  lemma ExitingCore(k: Kernel, i: nat, t: Task, exit: ProcessExit)
    requires Core(k, None) && i < |k.tasks| && k.tasks[i].pid.Some? && !k.tasks[i].Terminal()
    requires t.pid == k.tasks[i].pid && t.Terminal()
    ensures k.tasks[i].pid.value in k.procs
    ensures
      var k' := Exiting(k, i, t, exit);
      var pid := t.pid.value;
      && Core(k', Some(pid)) && AfterExit(k.procs, pid, exit, k'.procs)
      && forall j | 0 <= j < |k.tasks| && BlockedOn(k'.tasks[j], pid) :: WaiterOk(k'.tasks[j], k'.procs, k.spaces)
  {
    hide FamilyOk, OrphansAlive, WaitsOk, FilesOk, SpacesOk, HeapsOk, AfterExit, MarkExited, CloseAllFiles, WaiterOk;
    var pid := t.pid.value;
    assert pid in k.procs && k.procs[pid].mainTask == i;
    assert MainTaskOk(k.tasks, k.procs[pid], pid, k.nextPid);
    hide PidsOk;
    OrphansWiden(k.procs, pid);
    MarkExitedFamily(k.procs, pid, exit);
    var procs' := MarkExited(k.procs, pid, exit);
    ExitPids(k.tasks, k.procs, k.nextPid, k.lim, i, t, pid, exit, procs');
    ExitWaits(k.tasks, k.procs, k.spaces, k.nextPid, k.lim, i, t, pid, exit, procs');
    ExitFiles(k.procs, k.nextPid, k.files, k.lim, pid, exit, procs');
    ExitSpaces(k.procs, k.spaces, k.unclaimed, k.lim.kernelRoot, pid, exit, procs');
  }

  lemma OrphansWiden(procs: Procs, pid: nat)
    requires OrphansAlive(procs, None)
    ensures OrphansAlive(procs, Some(pid))
  {
  }

  // ----- its parent is told -----

  /** At most one task waits for a given child. */
  lemma OneWaiter(k: Kernel, v: nat, w: nat, z: nat)
    requires Inv(k) && v < |k.tasks| && w < |k.tasks|
    requires BlockedOn(k.tasks[v], z) && BlockedOn(k.tasks[w], z)
    ensures v == w
  {
    hide OrphansAlive, FilesOk, SpacesOk, HeapsOk, CurrentOk, RangeOk, MainTaskOk;
    assert WaitOk(k.tasks[v], k.procs, k.spaces) && WaitOk(k.tasks[w], k.procs, k.spaces);
    assert k.procs[z].parent == k.tasks[v].pid == k.tasks[w].pid;
  }

  /** The kernel `k` once waiter `w` has learnt of its child `z`: it is ready, its
      system call returns the child's pid, the status is in its memory and the child
      is gone. */
  ghost function Woken(k: Kernel, w: nat, z: nat): Kernel
    requires w < |k.tasks| && BlockedOn(k.tasks[w], z) && WaiterOk(k.tasks[w], k.procs, k.spaces) && IsZombie(k.procs, z)
    requires k.procs[k.tasks[w].pid.value].root in k.spaces
  {
    var parent := k.tasks[w].pid.value;
    var root := k.procs[parent].root;
    k.(tasks := k.tasks[w := k.tasks[w].(state := Ready, rax := z)],
       spaces := k.spaces[root := StatusWritten(k.spaces[root], k.tasks[w].state.statusPtr, k.procs[z].state.exit)],
       procs := ReapChild(k.procs, parent, z))
  }

  lemma WakeExact(k: Kernel, z: nat)
    requires Core(k, Some(z)) && IsZombie(k.procs, z) && FindWaiter(k.tasks, z).Some?
    requires WaiterOk(k.tasks[FindWaiter(k.tasks, z).value], k.procs, k.spaces)
    ensures
      var w := FindWaiter(k.tasks, z).value;
      && k.procs[k.tasks[w].pid.value].root in k.spaces
      && Wake(k, z) == Woken(k, w, z)
      && Wake(k, z) == CompleteWait(SetState(k, w, Ready), w, z, k.tasks[w].state.statusPtr)
      && CanComplete(SetState(k, w, Ready), w, z, k.tasks[w].state.statusPtr)
  {
    hide PidsOk, FamilyOk, OrphansAlive, WaitsOk, FilesOk, HeapsOk, FindWaiter, CompleteWait, RangeOk, StatusWritten,
         ReapChild, SameShape;
    var w := FindWaiter(k.tasks, z).value;
    var statusPtr := k.tasks[w].state.statusPtr;
    CompleteWaitExact(k, w, z, statusPtr);
    CompleteWaitExact(SetState(k, w, Ready), w, z, statusPtr);
  }

  lemma WakeKeepsCore(k: Kernel, z: nat)
    requires Core(k, Some(z)) && IsZombie(k.procs, z) && FindWaiter(k.tasks, z).Some?
    requires WaiterOk(k.tasks[FindWaiter(k.tasks, z).value], k.procs, k.spaces)
    requires forall j | 0 <= j < |k.tasks| && BlockedOn(k.tasks[j], z) :: j == FindWaiter(k.tasks, z).value
    ensures Core(Wake(k, z), None)
  {
    hide Core, FindWaiter, CompleteWait, Wake, Woken, CanComplete, WaiterOk;
    WakeExact(k, z);
    var w := FindWaiter(k.tasks, z).value;
    var ready := SetState(k, w, Ready);
    CacheKept(k, ready, Some(z));
    CompleteKeepsCore(ready, w, z, k.tasks[w].state.statusPtr);
  }

  lemma CacheKept(k: Kernel, k': Kernel, x: Option<nat>)
    requires Core(k, x) && SameTasks(k.tasks, k'.tasks) && k' == k.(tasks := k'.tasks)
    ensures Core(k', x)
  {
    hide PidsOk, FamilyOk, OrphansAlive, WaitsOk, FilesOk, SpacesOk, HeapsOk, SameTasks;
    SameTasksKeepCore(k, k', x);
  }

  lemma UnwaitedKeepsCore(k: Kernel, z: nat)
    requires Core(k, Some(z)) && IsZombie(k.procs, z)
    requires forall j | 0 <= j < |k.tasks| :: !BlockedOn(k.tasks[j], z)
    ensures Core(k.(procs := ReapOrphan(k.procs, z)), None)
  {
    hide PidsOk, FilesOk, SpacesOk, HeapsOk, FamilyOk;
    ReapOrphanFamily(k.procs, z);
    if k.procs[z].orphaned {
      hide WaitsOk, OrphansAlive;
      ReapKeepsCore(k, ReapOrphan(k.procs, z), z);
    }
  }

  // ----- together -----

  /** An exit turns the process into a zombie and then either reaps it, because its
      parent was waiting or is gone, or leaves it for the parent to find. */
  lemma ExitExact(k: Kernel, i: nat, t: Task, exit: ProcessExit)
    requires Inv(k) && i < |k.tasks| && k.tasks[i].pid.Some? && !k.tasks[i].Terminal()
    requires t.pid == k.tasks[i].pid && t.Terminal()
    ensures k.tasks[i].pid.value in k.procs
    ensures
      var pid := t.pid.value;
      var k1 := Exiting(k, i, t, exit);
      var k' := ExitProcess(k.(tasks := k.tasks[i := t]), pid, exit);
      var waiter := FindWaiter(k1.tasks, pid);
      && Core(k', None) && IsZombie(k1.procs, pid)
      && (waiter.None? ==> k' == k1.(procs := ReapOrphan(k1.procs, pid)))
      && (waiter.Some? ==>
            && WaiterOk(k1.tasks[waiter.value], k1.procs, k1.spaces)
            && k1.procs[k1.tasks[waiter.value].pid.value].root in k1.spaces
            && k' == Woken(k1, waiter.value, pid))
  {
    hide Core, CurrentOk, FindWaiter, Wake, MarkExited, CloseAllFiles, Woken, WaiterOk, CompleteWait, ReapChild;
    ExitingCore(k, i, t, exit);
    var pid := t.pid.value;
    var k1 := Exiting(k, i, t, exit);
    assert Lookup(k1.procs, pid).Some? && IsZombie(k1.procs, pid);
    hide AfterExit;
    var waiter := FindWaiter(k1.tasks, pid);
    if waiter.None? {
      assert Wake(k1, pid) == k1 by { WakeNobody(k1, pid); }
      UnwaitedKeepsCore(k1, pid);
    } else {
      forall j | 0 <= j < |k1.tasks| && BlockedOn(k1.tasks[j], pid) ensures j == waiter.value {
        assert k1.tasks[j] == k.tasks[j] && k1.tasks[waiter.value] == k.tasks[waiter.value];
        OneWaiter(k, j, waiter.value, pid);
      }
      WakeExact(k1, pid);
      WakeKeepsCore(k1, pid);
      assert pid !in Wake(k1, pid).procs by { WokenReaps(k1, waiter.value, pid); }
    }
  }

  lemma WakeNobody(k: Kernel, z: nat)
    requires FindWaiter(k.tasks, z).None?
    ensures Wake(k, z) == k
  {
  }

  lemma WokenReaps(k: Kernel, w: nat, z: nat)
    requires w < |k.tasks| && BlockedOn(k.tasks[w], z) && WaiterOk(k.tasks[w], k.procs, k.spaces) && IsZombie(k.procs, z)
    requires k.procs[k.tasks[w].pid.value].root in k.spaces
    ensures z !in Woken(k, w, z).procs
  {
  }

  lemma EndedKeepsCore(k: Kernel, i: nat, t: Task)
    requires Core(k, None) && i < |k.tasks| && k.tasks[i].pid.None? && t.pid.None? && t.Terminal()
    ensures Core(k.(tasks := k.tasks[i := t]), None)
  {
    hide FamilyOk, OrphansAlive, FilesOk, SpacesOk, HeapsOk;
    var tasks' := k.tasks[i := t];
    forall p | p in k.procs ensures MainTaskOk(tasks', k.procs[p], p, k.nextPid) {
      assert MainTaskOk(k.tasks, k.procs[p], p, k.nextPid);
    }
    forall j | 0 <= j < |tasks'| ensures WaitOk(tasks'[j], k.procs, k.spaces) {
      assert WaitOk(k.tasks[j], k.procs, k.spaces);
    }
  }

  lemma ExitLeavesNoneRunning(k: Kernel, i: nat, t: Task, exit: ProcessExit)
    requires Inv(k) && i < |k.tasks| && k.tasks[i].pid.Some? && !k.tasks[i].Terminal()
    requires t.pid == k.tasks[i].pid && t.Terminal() && NoneRunning(k.tasks[i := t])
    ensures
      var k' := ExitProcess(k.(tasks := k.tasks[i := t]), t.pid.value, exit);
      Core(k', None) && |k'.tasks| == |k.tasks| && NoneRunning(k'.tasks)
  {
    hide Inv, Core, ExitProcess, FindWaiter, Exiting, ReapOrphan, WaiterOk;
    ExitExact(k, i, t, exit);
    ExitingTasks(k, i, t, exit);
  }

  lemma AfterFinishCore(k: Kernel, exitCode: Option<nat>, fault: Option<UserFaultInfo>)
    requires Inv(k) && HasCurrent(k)
    ensures
      var k' := AfterFinish(k, exitCode, fault);
      Core(k', None) && |k'.tasks| == |k.tasks| && NoneRunning(k'.tasks)
  {
    hide Core, ExitProcess, CurrentOk, NoneRunning;
    var i := k.current.value;
    var t := Ended(k.tasks[i], exitCode, fault);
    OnlyCurrentEnds(k, t);
    if t.pid.Some? {
      ExitLeavesNoneRunning(k, i, t, ExitStatus(exitCode, fault));
    } else {
      EndedKeepsCore(k, i, t);
    }
  }

  lemma OnlyCurrentEnds(k: Kernel, t: Task)
    requires Inv(k) && HasCurrent(k) && t.Terminal()
    ensures k.tasks[k.current.value].state == Running && NoneRunning(k.tasks[k.current.value := t])
  {
    hide Core;
    OnlyCurrentRuns(k, t.state);
  }

  lemma ExitingTasks(k: Kernel, i: nat, t: Task, exit: ProcessExit)
    requires i < |k.tasks| && k.tasks[i].pid.Some? && k.tasks[i].pid.value in k.procs
    ensures Exiting(k, i, t, exit).tasks == k.tasks[i := t]
  {
  }

  lemma FinishKeepsInv(k: Kernel, exitCode: Option<nat>, fault: Option<UserFaultInfo>)
    requires Inv(k) && HasCurrent(k)
    ensures Inv(Finish(k, exitCode, fault))
  {
    hide Core, CurrentOk, ExitProcess, PickNext, AfterFinish;
    AfterFinishCore(k, exitCode, fault);
    PickNextKeepsInv(AfterFinish(k, exitCode, fault), k.current.value);
  }

  /** A kernel task returns: nothing but its state changes before the next is picked. */
  lemma TaskReturnKeepsInv(k: Kernel)
    requires Inv(k) && HasCurrent(k) && CurrentPid(k).None?
    ensures Inv(PickNext(SetState(k, k.current.value, Finished), k.current.value))
  {
    hide Core, CurrentOk, PickNext;
    OnlyCurrentRuns(k, Finished);
    EndedKeepsCore(k, k.current.value, k.tasks[k.current.value].(state := Finished));
    PickNextKeepsInv(SetState(k, k.current.value, Finished), k.current.value);
  }
}

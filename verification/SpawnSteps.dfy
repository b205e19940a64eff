/** New tasks, address spaces and processes keep the invariant. */
module SpawnSteps {
  import opened Base
  import opened UserSpaces
  import opened UserLayout
  import opened Files
  import opened Processes
  import opened Kernel
  import opened Invariants
  import opened Preservation

  // ----- kernel tasks and address spaces -----

  lemma SpawnTaskCore(k: Kernel)
    requires Inv(k)
    ensures Core(SpawnKernelTask(k), None)
  {
    hide FamilyOk, OrphansAlive, FilesOk, SpacesOk, HeapsOk, CurrentOk;
    var k' := SpawnKernelTask(k);
    if k' != k {
      forall p | p in k.procs ensures MainTaskOk(k'.tasks, k.procs[p], p, k.nextPid) {
        assert MainTaskOk(k.tasks, k.procs[p], p, k.nextPid);
      }
      forall i | 0 <= i < |k'.tasks| ensures WaitOk(k'.tasks[i], k.procs, k.spaces) {
        assert i < |k.tasks| ==> WaitOk(k.tasks[i], k.procs, k.spaces);
      }
    }
  }

  lemma SpawnTaskKeepsInv(k: Kernel)
    requires Inv(k)
    ensures Inv(SpawnKernelTask(k))
  {
    hide Core;
    SpawnTaskCore(k);
  }

  lemma MakeSpaceKeepsInv(k: Kernel, root: nat, view: UserSpace)
    requires Inv(k) && root !in k.spaces && root != k.lim.kernelRoot
    ensures Inv(WithSpace(k, root, view))
  {
    hide PidsOk, FamilyOk, OrphansAlive, FilesOk, HeapOk, HeapMapped;
    var spaces' := k.spaces[root := view];
    forall i | 0 <= i < |k.tasks| ensures WaitOk(k.tasks[i], k.procs, spaces') {
      assert WaitOk(k.tasks[i], k.procs, k.spaces);
    }
  }

  // ----- processes -----

  lemma AllocKeepsSlots(files: FileSlots, lim: Limits, kind: OpenFileKind, access: AccessMode)
    requires SlotsOk(files, lim) && lim.files > 0 && FileOk(OpenFile(kind, access, 0, 1), lim)
    ensures SlotsOk(AllocFile(files, lim.files, kind, access).0, lim)
  {
  }

  lemma StdioKeepsSlots(files: FileSlots, lim: Limits)
    requires SlotsOk(files, lim) && LimitsOk(lim)
    ensures SlotsOk(NewWithStdio(files, lim.files, lim.fds).0, lim)
  {
    StdioRollsBack(files, lim.files, lim.fds);
    var (files1, stdin) := AllocFile(files, lim.files, NullInput, ReadOnly);
    AllocKeepsSlots(files, lim, NullInput, ReadOnly);
    var (files2, stdout) := AllocFile(files1, lim.files, ConsoleStdout, WriteOnly);
    AllocKeepsSlots(files1, lim, ConsoleStdout, WriteOnly);
    AllocKeepsSlots(files2, lim, ConsoleStderr, WriteOnly);
    hide AllocFile;
  }

  /** A failed spawn leaves every reference count as it was. */
  lemma FailedStdioKeepsFiles(procs: Procs, n: nat, files: FileSlots, lim: Limits)
    requires FilesOk(procs, n, files, lim) && LimitsOk(lim)
    ensures
      var (files', fds) := NewWithStdio(files, lim.files, lim.fds);
      fds.Err? ==> FilesOk(procs, n, files', lim)
  {
    StdioRollsBack(files, lim.files, lim.fds);
    SlotsKeepFiles(procs, n, files, lim);
  }

  lemma CreateHolds(procs: Procs, n: nat, parent: Option<nat>, root: nat, heap: UserHeap, fds: FdTable, task: nat,
          s: nat)
    requires (forall q | q in procs :: q < n) && (parent.Some? ==> parent.value in procs)
    ensures Refs(Create(procs, n, parent, root, heap, fds, task), n + 1, s) == Refs(procs, n, s) + CountFds(fds, s)
  {
    hide CountFds;
    var procs' := Create(procs, n, parent, root, heap, fds, task);
    forall q: nat | q < n ensures HeldBy(procs', q, s) == HeldBy(procs, q, s) {
    }
    SameHoldings(procs, procs', n, s);
    assert HeldBy(procs', n, s) == CountFds(fds, s);
  }

  /** A new process holds exactly the three references that were created. */
  lemma CreateKeepsFiles(procs: Procs, n: nat, files: FileSlots, lim: Limits, parent: Option<nat>, root: nat,
          heap: UserHeap, task: nat)
    requires FilesOk(procs, n, files, lim) && LimitsOk(lim)
    requires (forall q | q in procs :: q < n) && (parent.Some? ==> parent.value in procs)
    ensures
      var (files', fds) := NewWithStdio(files, lim.files, lim.fds);
      fds.Ok? ==> FilesOk(Create(procs, n, parent, root, heap, fds.value, task), n + 1, files', lim)
  {
    hide NewWithStdio, SlotsOk, Refs, CountFds, RefCount;
    StdioKeepsSlots(files, lim);
    var (files', fds) := NewWithStdio(files, lim.files, lim.fds);
    if fds.Ok? {
      var procs' := Create(procs, n, parent, root, heap, fds.value, task);
      assert RefsOk(procs', n + 1, files') by {
        hide Create;
        forall s: nat ensures Refs(procs', n + 1, s) == RefCount(files', s) {
          StdioCounts(files, lim.files, lim.fds, s);
          CreateHolds(procs, n, parent, root, heap, fds.value, task, s);
          assert Refs(procs, n, s) == RefCount(files, s);
        }
      }
      StdioCounts(files, lim.files, lim.fds, 0);
    }
  }

  lemma CreateKeepsPids(tasks: seq<Task>, procs: Procs, n: nat, lim: Limits, t: Task, parent: Option<nat>, root: nat,
          heap: UserHeap, fds: FdTable)
    requires PidsOk(tasks, procs, n, lim) && n <= lim.processes
    requires t.pid == Some(n) && t.state == Ready && (parent.Some? ==> parent.value in procs)
    ensures PidsOk(tasks + [t], Create(procs, n, parent, root, heap, fds, |tasks|), n + 1, lim)
  {
    var tasks', procs' := tasks + [t], Create(procs, n, parent, root, heap, fds, |tasks|);
    forall p | p in procs' ensures MainTaskOk(tasks', procs'[p], p, n + 1) {
      if p != n {
        assert MainTaskOk(tasks, procs[p], p, n);
      }
    }
    forall i | 0 <= i < |tasks'| && tasks'[i].pid.Some? && !tasks'[i].Terminal()
      ensures tasks'[i].pid.value in procs' && procs'[tasks'[i].pid.value].mainTask == i
    {
      assert i < |tasks| ==> tasks'[i] == tasks[i];
    }
  }

  lemma CreateKeepsWaits(tasks: seq<Task>, procs: Procs, spaces: map<nat, UserSpace>, n: nat, t: Task,
          parent: Option<nat>, root: nat, heap: UserHeap, fds: FdTable)
    requires WaitsOk(tasks, procs, spaces, None) && t.state == Ready && n !in procs
    ensures WaitsOk(tasks + [t], Create(procs, n, parent, root, heap, fds, |tasks|), spaces, None)
  {
    var tasks', procs' := tasks + [t], Create(procs, n, parent, root, heap, fds, |tasks|);
    forall i | 0 <= i < |tasks'| ensures WaitOk(tasks'[i], procs', spaces) {
      assert i < |tasks| ==> WaitOk(tasks[i], procs, spaces);
    }
  }

  lemma CreateKeepsSpaces(procs: Procs, spaces: map<nat, UserSpace>, unclaimed: set<nat>, kernelRoot: nat, n: nat,
          parent: Option<nat>, root: nat, heap: UserHeap, fds: FdTable, task: nat)
    requires SpacesOk(procs, spaces, unclaimed, kernelRoot) && HeapsOk(procs, spaces) && n !in procs
    requires root in unclaimed && root in spaces && FreshLayout(heap, spaces[root])
    ensures SpacesOk(Create(procs, n, parent, root, heap, fds, task), spaces, unclaimed - {root}, kernelRoot)
    ensures HeapsOk(Create(procs, n, parent, root, heap, fds, task), spaces)
  {
    hide HeapOk, HeapMapped;
  }

  lemma PidsBelow(k: Kernel)
    requires Inv(k)
    ensures k.nextPid >= 1 && forall q | q in k.procs :: 1 <= q < k.nextPid
  {
    hide FamilyOk, OrphansAlive, WaitsOk, FilesOk, SpacesOk, HeapsOk, CurrentOk;
    forall q | q in k.procs ensures 1 <= q < k.nextPid {
      assert MainTaskOk(k.tasks, k.procs[q], q, k.nextPid);
    }
  }

  /** What a successful spawn makes of the kernel. */
  ghost function Spawned(k: Kernel, parent: Option<nat>, init: UserInit, files: FileSlots, fds: FdTable): Kernel {
    k.(unclaimed := k.unclaimed - {init.root},
       files := files,
       procs := Create(k.procs, k.nextPid, parent, init.root, init.heap, fds, |k.tasks|),
       nextPid := k.nextPid + 1,
       tasks := k.tasks + [Task(Some(k.nextPid), Ready, 0, init.arg0, None, None)])
  }

  lemma SpawnedCore(k: Kernel, parent: Option<nat>, init: UserInit, files: FileSlots, fds: FdTable)
    requires Inv(k) && |k.tasks| < k.lim.tasks && CanCreate(k.procs, k.nextPid, k.lim.processes, parent).None?
    requires init.root in k.unclaimed && init.root in k.spaces && FreshLayout(init.heap, k.spaces[init.root])
    requires FilesOk(Create(k.procs, k.nextPid, parent, init.root, init.heap, fds, |k.tasks|), k.nextPid + 1, files, k.lim)
    ensures Core(Spawned(k, parent, init, files, fds), None)
  {
    hide PidsOk, FamilyOk, OrphansAlive, WaitsOk, FilesOk, SpacesOk, HeapsOk, CurrentOk, FreshLayout, Create;
    PidsBelow(k);
    var t := Task(Some(k.nextPid), Ready, 0, init.arg0, None, None);
    CreateKeepsPids(k.tasks, k.procs, k.nextPid, k.lim, t, parent, init.root, init.heap, fds);
    CreateKeepsWaits(k.tasks, k.procs, k.spaces, k.nextPid, t, parent, init.root, init.heap, fds);
    CreateFamily(k.procs, k.nextPid, parent, init.root, init.heap, fds, |k.tasks|);
    CreateOrphans(k.procs, k.nextPid, parent, init.root, init.heap, fds, |k.tasks|);
    CreateKeepsSpaces(k.procs, k.spaces, k.unclaimed, k.lim.kernelRoot, k.nextPid, parent, init.root, init.heap, fds, |k.tasks|);
  }

  lemma CreateOrphans(procs: Procs, pid: nat, parent: Option<nat>, root: nat, heap: UserHeap, fds: FdTable, task: nat)
    requires OrphansAlive(procs, None) && pid !in procs
    ensures OrphansAlive(Create(procs, pid, parent, root, heap, fds, task), None)
  {
  }

  lemma SpawnedCurrent(k: Kernel, parent: Option<nat>, init: UserInit, files: FileSlots, fds: FdTable)
    requires CurrentOk(k) && k.nextPid !in k.procs
    requires k.current.Some? && CurrentPid(k).Some? ==> CurrentPid(k).value in k.procs
    ensures CurrentOk(Spawned(k, parent, init, files, fds))
  {
    var k' := Spawned(k, parent, init, files, fds);
    assert forall i | 0 <= i < |k.tasks| :: k'.tasks[i] == k.tasks[i];
    if k.current.Some? {
      assert RootOf(k', k.current.value) == RootOf(k, k.current.value);
    }
  }

  lemma UnclaimKeepsInv(k: Kernel, root: nat)
    requires Inv(k)
    ensures Inv(k.(unclaimed := k.unclaimed - {root}))
  {
    hide PidsOk, FamilyOk, OrphansAlive, WaitsOk, FilesOk, HeapsOk;
  }

  lemma SpawnedInv(k: Kernel, parent: Option<nat>, init: UserInit, files: FileSlots, fds: FdTable)
    requires Inv(k) && |k.tasks| < k.lim.tasks && CanCreate(k.procs, k.nextPid, k.lim.processes, parent).None?
    requires init.root in k.unclaimed && init.root in k.spaces && FreshLayout(init.heap, k.spaces[init.root])
    requires FilesOk(Create(k.procs, k.nextPid, parent, init.root, init.heap, fds, |k.tasks|), k.nextPid + 1, files, k.lim)
    ensures Inv(Spawned(k, parent, init, files, fds))
  {
    hide Core, CurrentOk, FilesOk, FreshLayout, Create, Spawned;
    PidsBelow(k);
    if HasCurrent(k) && CurrentPid(k).Some? {
      LiveProcess(k);
    }
    assert k.current.Some? ==> HasCurrent(k) by { CurrentFits(k); }
    SpawnedCore(k, parent, init, files, fds);
    SpawnedCurrent(k, parent, init, files, fds);
  }

  lemma SpawnKeepsInv(k: Kernel, parent: Option<nat>, init: UserInit)
    requires Inv(k) && LimitsOk(k.lim)
    requires init.root in k.unclaimed && init.root in k.spaces && FreshLayout(init.heap, k.spaces[init.root])
    ensures Inv(SpawnProcess(k, parent, init))
  {
    hide Inv, FilesOk, NewWithStdio, FreshLayout, Create;
    PidsBelow(k);
    FilesPart(k);
    UnclaimKeepsInv(k, init.root);
    FailedStdioKeepsFiles(k.procs, k.nextPid, k.files, k.lim);
    var (files, fds) := NewWithStdio(k.files, k.lim.files, k.lim.fds);
    if fds.Err? {
      FilesKeepInv(k.(unclaimed := k.unclaimed - {init.root}), files);
    } else if |k.tasks| < k.lim.tasks && CanCreate(k.procs, k.nextPid, k.lim.processes, parent).None? {
      CreateKeepsFiles(k.procs, k.nextPid, k.files, k.lim, parent, init.root, init.heap, |k.tasks|);
      SpawnedInv(k, parent, init, files, fds.value);
    }
  }
}

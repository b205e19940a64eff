/** Every step keeps the invariant: scheduling, memory and file steps. */
module Preservation {
  import opened Base
  import opened UserSpaces
  import opened UserLayout
  import opened Files
  import opened Processes
  import opened Kernel
  import opened Invariants

  // ----- changes to registers and to ready/running states -----

  /** Same tasks up to registers and the ready/running distinction. */
  ghost predicate SameTasks(tasks: seq<Task>, tasks': seq<Task>) {
    && |tasks'| == |tasks|
    && forall i | 0 <= i < |tasks| ::
         && tasks'[i].pid == tasks[i].pid
         && tasks'[i].Terminal() == tasks[i].Terminal()
         && (tasks'[i].state.Blocked? ==> tasks'[i].state == tasks[i].state)
  }

  lemma SameTasksKeepPids(tasks: seq<Task>, tasks': seq<Task>, procs: Procs, nextPid: nat, lim: Limits)
    requires PidsOk(tasks, procs, nextPid, lim) && SameTasks(tasks, tasks')
    ensures PidsOk(tasks', procs, nextPid, lim)
  {
    forall p | p in procs ensures MainTaskOk(tasks', procs[p], p, nextPid) {
      assert MainTaskOk(tasks, procs[p], p, nextPid);
    }
  }

  lemma SameTasksKeepWaits(tasks: seq<Task>, tasks': seq<Task>, procs: Procs, spaces: map<nat, UserSpace>,
          x: Option<nat>)
    requires WaitsOk(tasks, procs, spaces, x) && SameTasks(tasks, tasks')
    ensures WaitsOk(tasks', procs, spaces, x)
  {
    forall i | 0 <= i < |tasks'| && tasks'[i].state.Blocked? && !(x.Some? && BlockedOn(tasks'[i], x.value))
      ensures WaitOk(tasks'[i], procs, spaces)
    {
      assert WaitOk(tasks[i], procs, spaces);
    }
  }

  lemma SameTasksKeepCore(k: Kernel, k': Kernel, x: Option<nat>)
    requires Core(k, x) && SameTasks(k.tasks, k'.tasks)
    requires k' == k.(tasks := k'.tasks, current := k'.current, cr3 := k'.cr3, cachedRoot := k'.cachedRoot)
    requires k'.cachedRoot.Some? ==> k'.cachedRoot.value == k'.cr3
    ensures Core(k', x)
  {
    hide PidsOk, WaitsOk, FamilyOk, FilesOk, SpacesOk, HeapsOk, OrphansAlive, SameTasks;
    SameTasksKeepPids(k.tasks, k'.tasks, k.procs, k.nextPid, k.lim);
    SameTasksKeepWaits(k.tasks, k'.tasks, k.procs, k.spaces, x);
    assert |k'.tasks| == |k.tasks| by { SameLength(k.tasks, k'.tasks); }
  }

  lemma SameLength(tasks: seq<Task>, tasks': seq<Task>)
    requires SameTasks(tasks, tasks')
    ensures |tasks'| == |tasks|
  {
  }

  /** Writing a register of one task is invisible to the invariant. */
  lemma RegistersKeepInv(k: Kernel, i: nat, t: Task)
    requires Inv(k) && i < |k.tasks|
    requires t.pid == k.tasks[i].pid && t.state == k.tasks[i].state
    ensures Inv(k.(tasks := k.tasks[i := t]))
  {
    hide PidsOk, FamilyOk, OrphansAlive, WaitsOk, FilesOk, SpacesOk, HeapsOk;
    SameTasksKeepCore(k, k.(tasks := k.tasks[i := t]), None);
  }

  // ----- picking the next task -----

  lemma DispatchKeepsInv(k: Kernel, next: nat)
    requires Core(k, None) && NoneRunning(k.tasks) && next < |k.tasks| && k.tasks[next].state == Ready
    ensures Inv(Dispatch(k, next))
  {
    hide PidsOk, FamilyOk, OrphansAlive, WaitsOk, FilesOk, SpacesOk, HeapsOk;
    var k' := Dispatch(k, next);
    assert SameTasks(k.tasks, k'.tasks);
    SameTasksKeepCore(k, k', None);
  }

  /** With no task running, picking the next one restores the whole invariant; main
      regains control exactly when no task is ready. */
  lemma PickNextKeepsInv(k: Kernel, start: nat)
    requires Core(k, None) && NoneRunning(k.tasks) && start < |k.tasks|
    ensures Inv(PickNext(k, start))
    ensures PickNext(k, start).current.None? <==> forall i | 0 <= i < |k.tasks| :: k.tasks[i].state != Ready
    ensures PickNext(k, start).current.None? ==> PickNext(k, start).tasks == k.tasks
  {
    hide PidsOk, FamilyOk, OrphansAlive, WaitsOk, FilesOk, SpacesOk, HeapsOk;
    NextReadyFinds(k.tasks, start);
    var next := NextReady(k.tasks, start);
    if next.Some? {
      DispatchKeepsInv(k, next.value);
    } else {
      SameTasksKeepCore(k, PickNext(k, start), None);
    }
  }

  lemma SwitchKeepsInv(k: Kernel)
    requires Inv(k)
    ensures Inv(Switch(k))
  {
    hide PidsOk, FamilyOk, OrphansAlive, WaitsOk, FilesOk, SpacesOk, HeapsOk;
    if HasCurrent(k) && k.tasks[k.current.value].state == Running {
      NextReadyFinds(k.tasks, k.current.value);
      var next := NextReady(k.tasks, k.current.value);
      if next.Some? {
        var paused := SetState(k, k.current.value, Ready);
        SameTasksKeepCore(k, paused, None);
        DispatchKeepsInv(paused, next.value);
      }
    }
  }

  lemma StartKeepsInv(k: Kernel)
    requires Inv(k) && k.current.None?
    ensures Inv(StartRunning(k))
  {
    hide PidsOk, FamilyOk, OrphansAlive, WaitsOk, FilesOk, SpacesOk, HeapsOk;
    FirstReadyFinds(k.tasks);
    var next := FirstReady(k.tasks);
    if next.Some? {
      var k1 := k.(cachedRoot := Some(k.cr3));
      SameTasksKeepCore(k, k1, None);
      DispatchKeepsInv(k1, next.value);
    }
  }

  // ----- changes to the bytes of an address space -----

  lemma SameShapeKeepsWaits(tasks: seq<Task>, procs: Procs, spaces: map<nat, UserSpace>, root: nat, s: UserSpace,
          x: Option<nat>)
    requires WaitsOk(tasks, procs, spaces, x) && root in spaces && SameShape(spaces[root], s)
    ensures WaitsOk(tasks, procs, spaces[root := s], x)
  {
    forall i | 0 <= i < |tasks| && !(x.Some? && BlockedOn(tasks[i], x.value)) ensures WaitOk(tasks[i], procs, spaces[root := s]) {
      assert WaitOk(tasks[i], procs, spaces);
      if tasks[i].state.Blocked? && tasks[i].state.statusPtr.Some? {
        ShapeKeepsRange(spaces[root], s, tasks[i].state.statusPtr.value, STATUS_SIZE, Write);
      }
    }
  }

  lemma SameShapeKeepsHeaps(procs: Procs, spaces: map<nat, UserSpace>, root: nat, s: UserSpace)
    requires HeapsOk(procs, spaces) && root in spaces && SameShape(spaces[root], s)
    ensures HeapsOk(procs, spaces[root := s])
  {
    forall p | p in procs ensures HeapMapped(spaces[root := s][procs[p].root], procs[p].heap) {
      assert HeapMapped(spaces[procs[p].root], procs[p].heap);
    }
  }

  /** Writing user bytes, however many, keeps the invariant. */
  lemma BytesKeepCore(k: Kernel, pid: nat, s: UserSpace, x: Option<nat>)
    requires Core(k, x) && SameShape(SpaceOf(k, pid), s)
    ensures Core(SetSpace(k, pid, s), x)
  {
    hide PidsOk, FamilyOk, OrphansAlive, WaitsOk, FilesOk, HeapsOk, SameShape;
    if pid in k.procs && k.procs[pid].root in k.spaces {
      var root := k.procs[pid].root;
      SameShapeKeepsWaits(k.tasks, k.procs, k.spaces, root, s, x);
      SameShapeKeepsHeaps(k.procs, k.spaces, root, s);
    }
  }

  lemma BytesKeepInv(k: Kernel, pid: nat, s: UserSpace)
    requires Inv(k) && SameShape(SpaceOf(k, pid), s)
    ensures Inv(SetSpace(k, pid, s))
  {
    hide Core, SameShape;
    BytesKeepCore(k, pid, s, None);
  }

  // ----- changes to descriptors and heaps only -----

  /** Same processes up to descriptor tables and heaps. */
  ghost predicate SameBones(procs: Procs, procs': Procs) {
    && procs'.Keys == procs.Keys
    && forall p | p in procs ::
         procs'[p] == procs[p].(fds := procs'[p].fds, heap := procs'[p].heap)
  }

  lemma BonesKeepPids(tasks: seq<Task>, procs: Procs, procs': Procs, nextPid: nat, lim: Limits)
    requires SameBones(procs, procs') && PidsOk(tasks, procs, nextPid, lim)
    ensures PidsOk(tasks, procs', nextPid, lim)
  {
    forall p | p in procs' ensures MainTaskOk(tasks, procs'[p], p, nextPid) {
      assert MainTaskOk(tasks, procs[p], p, nextPid);
    }
  }

  lemma BonesKeepFamily(procs: Procs, procs': Procs)
    requires SameBones(procs, procs') && FamilyOk(procs) && OrphansAlive(procs, None)
    ensures FamilyOk(procs') && OrphansAlive(procs', None)
  {
    forall p | p in procs' ensures NoDuplicates(procs'[p].children) {
      assert NoDuplicates(procs[p].children);
    }
  }

  lemma BonesKeepWaits(tasks: seq<Task>, procs: Procs, procs': Procs, spaces: map<nat, UserSpace>)
    requires SameBones(procs, procs') && WaitsOk(tasks, procs, spaces, None)
    ensures WaitsOk(tasks, procs', spaces, None)
  {
    forall i | 0 <= i < |tasks| ensures WaitOk(tasks[i], procs', spaces) {
      assert WaitOk(tasks[i], procs, spaces);
    }
  }

  lemma BonesKeepSpaces(procs: Procs, procs': Procs, spaces: map<nat, UserSpace>, unclaimed: set<nat>, kernelRoot: nat)
    requires SameBones(procs, procs') && SpacesOk(procs, spaces, unclaimed, kernelRoot)
    ensures SpacesOk(procs', spaces, unclaimed, kernelRoot)
  {
  }

  /** Changing descriptor tables and open files keeps the invariant as long as the
      references still add up. */
  lemma FdsKeepInv(k: Kernel, procs': Procs, files': FileSlots)
    requires Inv(k) && SameBones(k.procs, procs')
    requires forall p | p in k.procs :: procs'[p].heap == k.procs[p].heap
    requires FilesOk(procs', k.nextPid, files', k.lim)
    ensures Inv(k.(procs := procs', files := files'))
  {
    hide PidsOk, FamilyOk, OrphansAlive, WaitsOk, FilesOk, SpacesOk, HeapOk, HeapMapped;
    BonesKeepPids(k.tasks, k.procs, procs', k.nextPid, k.lim);
    BonesKeepFamily(k.procs, procs');
    BonesKeepWaits(k.tasks, k.procs, procs', k.spaces);
    BonesKeepSpaces(k.procs, procs', k.spaces, k.unclaimed, k.lim.kernelRoot);
  }

  /** Likewise for the descriptors of one process. */
  lemma FdsOfOneKeepInv(k: Kernel, pid: nat, fds: FdTable, files: FileSlots)
    requires Inv(k) && pid in k.procs
    requires FilesOk(k.procs[pid := k.procs[pid].(fds := fds)], k.nextPid, files, k.lim)
    ensures Inv(k.(procs := k.procs[pid := k.procs[pid].(fds := fds)], files := files))
  {
    hide Inv, FilesOk;
    FdsKeepInv(k, k.procs[pid := k.procs[pid].(fds := fds)], files);
  }

  lemma FilesKeepInv(k: Kernel, files: FileSlots)
    requires Inv(k) && FilesOk(k.procs, k.nextPid, files, k.lim)
    ensures Inv(k.(files := files))
  {
    hide PidsOk, FamilyOk, OrphansAlive, WaitsOk, FilesOk, SpacesOk, HeapsOk;
  }

  // ----- references -----

  lemma {:induction false} RefsChange(procs: Procs, procs': Procs, n: nat, p: nat, s: nat)
    requires forall q: nat | q != p :: HeldBy(procs', q, s) == HeldBy(procs, q, s)
    ensures Refs(procs', n, s) + (if p < n then HeldBy(procs, p, s) else 0)
            == Refs(procs, n, s) + (if p < n then HeldBy(procs', p, s) else 0)
    decreases n
  {
    if n > 0 {
      RefsChange(procs, procs', n - 1, p, s);
    }
  }

  lemma {:induction false} SameHoldings(procs: Procs, procs': Procs, n: nat, s: nat)
    requires forall q: nat | q < n :: HeldBy(procs', q, s) == HeldBy(procs, q, s)
    ensures Refs(procs', n, s) == Refs(procs, n, s)
  {
    if n > 0 {
      SameHoldings(procs, procs', n - 1, s);
    }
  }

  /** Rewriting one process's descriptors changes the totals by just that table. */
  lemma RefsOfUpdate(procs: Procs, n: nat, p: nat, fds: FdTable, s: nat)
    requires p in procs && p < n
    ensures Refs(procs[p := procs[p].(fds := fds)], n, s) + CountFds(procs[p].fds, s) == Refs(procs, n, s) + CountFds(fds, s)
  {
    var procs' := procs[p := procs[p].(fds := fds)];
    forall q: nat | q != p ensures HeldBy(procs', q, s) == HeldBy(procs, q, s) {
    }
    RefsChange(procs, procs', n, p, s);
  }

  lemma SlotsKeepFiles(procs: Procs, n: nat, files: FileSlots, lim: Limits)
    requires FilesOk(procs, n, files, lim)
    ensures FilesOk(procs, n, Slots(files, lim.files), lim)
  {
    var slots := Slots(files, lim.files);
    forall s: nat ensures Refs(procs, n, s) == RefCount(slots, s) {
      assert RefCount(slots, s) == RefCount(files, s);
    }
  }

  /** Allocating a slot and installing it in a free descriptor of process `p` keeps
      the references in balance. */
  lemma InstallKeepsFiles(procs: Procs, n: nat, files: FileSlots, lim: Limits, p: nat, kind: OpenFileKind,
          access: AccessMode)
    requires FilesOk(procs, n, files, lim) && p in procs && p < n && procs[p].state.Alive?
    requires FileOk(OpenFile(kind, access, 0, 1), lim)
    ensures
      var (files', slot) := AllocFile(files, lim.files, kind, access);
      slot.Ok? ==>
        var (fds, fd) := AllocateLowest(procs[p].fds, slot.value);
        fd.Ok? ==> FilesOk(procs[p := procs[p].(fds := fds)], n, files', lim)
  {
    var (files', slot) := AllocFile(files, lim.files, kind, access);
    if slot.Ok? {
      var (fds, fd) := AllocateLowest(procs[p].fds, slot.value);
      if fd.Ok? {
        var procs' := procs[p := procs[p].(fds := fds)];
        forall s: nat ensures Refs(procs', n, s) == RefCount(files', s) {
          RefsOfUpdate(procs, n, p, fds, s);
          CountOfUpdate(procs[p].fds, fd.value, Some(slot.value), s);
          AllocCounts(files, lim.files, kind, access, s);
          assert Refs(procs, n, s) == RefCount(files, s);
        }
      }
    }
  }

  /** open: the new slot and the new descriptor go together; if either table is full
      nothing is held. */
  lemma OpenFilesKept(k: Kernel, pid: nat, id: nat)
    requires FilesOk(k.procs, k.nextPid, k.files, k.lim) && k.lim.files > 0
    requires pid in k.procs && pid < k.nextPid && k.procs[pid].state.Alive? && id < |k.lim.embedded|
    ensures
      var (files, slot) := AllocFile(k.files, k.lim.files, EmbeddedFile(id), ReadOnly);
      if slot.Err? then FilesOk(k.procs, k.nextPid, files, k.lim)
      else
        var (fds, fd) := AllocateLowest(k.procs[pid].fds, slot.value);
        if fd.Err? then FilesOk(k.procs, k.nextPid, DecRef(files, slot.value), k.lim)
        else FilesOk(k.procs[pid := k.procs[pid].(fds := fds)], k.nextPid, files, k.lim)
  {
    InstallKeepsFiles(k.procs, k.nextPid, k.files, k.lim, pid, EmbeddedFile(id), ReadOnly);
    SlotsKeepFiles(k.procs, k.nextPid, k.files, k.lim);
    hide FilesOk;
    AllocThenDecRef(Slots(k.files, k.lim.files), k.lim.files, EmbeddedFile(id), ReadOnly);
  }

  lemma LiveProcess(k: Kernel)
    requires Inv(k) && CurrentPid(k).Some?
    ensures
      var pid := CurrentPid(k).value;
      pid in k.procs && pid < k.nextPid && k.procs[pid].state.Alive? && k.procs[pid].root in k.spaces
  {
    var i := k.current.value;
    assert k.tasks[i].state == Running;
    assert MainTaskOk(k.tasks, k.procs[k.tasks[i].pid.value], k.tasks[i].pid.value, k.nextPid);
  }

  lemma FilesPart(k: Kernel)
    requires Inv(k)
    ensures FilesOk(k.procs, k.nextPid, k.files, k.lim) && LimitsOk(k.lim)
  {
    hide PidsOk, FamilyOk, OrphansAlive, WaitsOk, FilesOk, SpacesOk, HeapsOk, CurrentOk;
  }

  lemma OpenKeepsInv(k: Kernel, path: nat, len: nat, flags: nat)
    requires Inv(k)
    ensures Inv(SysOpen(k, path, len, flags).0)
  {
    hide Inv, FilesOk, CopyIn, AllocFile, AllocateLowest, DecRef, FindEmbedded, SpaceOf;
    if CurrentPid(k).Some? {
      LiveProcess(k);
      var pid := CurrentPid(k).value;
      var found := FindEmbedded(k.lim.embedded, CopyIn(SpaceOf(k, pid), path, len).0);
      if found.Some? {
        FilesPart(k);
        OpenFilesKept(k, pid, found.value);
        var (files, slot) := AllocFile(k.files, k.lim.files, EmbeddedFile(found.value), ReadOnly);
        if slot.Err? {
          FilesKeepInv(k, files);
        } else {
          var (fds, fd) := AllocateLowest(k.procs[pid].fds, slot.value);
          if fd.Err? {
            FilesKeepInv(k, DecRef(files, slot.value));
          } else {
            FdsOfOneKeepInv(k, pid, fds, files);
          }
        }
      }
    }
  }

  /** close: the descriptor goes and so does its reference. */
  lemma CloseKeepsInv(k: Kernel, fd: nat)
    requires Inv(k)
    ensures Inv(SysClose(k, fd).0)
  {
    hide Inv, FilesOk, DecRef;
    if CurrentPid(k).Some? {
      LiveProcess(k);
      var pid := CurrentPid(k).value;
      var fds := k.procs[pid].fds;
      if fd < |fds| && fds[fd].Some? {
        FilesPart(k);
        CloseFilesKept(k.procs, k.nextPid, k.files, k.lim, pid, fd);
        FdsOfOneKeepInv(k, pid, fds[fd := None], DecRef(k.files, fds[fd].value));
      }
    }
  }

  lemma CloseFilesKept(procs: Procs, n: nat, files: FileSlots, lim: Limits, p: nat, fd: nat)
    requires FilesOk(procs, n, files, lim) && p in procs && p < n
    requires fd < |procs[p].fds| && procs[p].fds[fd].Some?
    ensures FilesOk(procs[p := procs[p].(fds := procs[p].fds[fd := None])], n, DecRef(files, procs[p].fds[fd].value), lim)
  {
    var slot, fds := procs[p].fds[fd].value, procs[p].fds[fd := None];
    var procs', files' := procs[p := procs[p].(fds := fds)], DecRef(files, slot);
    HeldAtMost(procs, n, p, slot);
    CountPositive(procs[p].fds, slot);
    assert procs[p].fds[fd] == Some(slot);
    assert RefCount(files, slot) > 0;
    forall s: nat ensures Refs(procs', n, s) == RefCount(files', s) {
      RefsOfUpdate(procs, n, p, fds, s);
      CountOfUpdate(procs[p].fds, fd, None, s);
      DecRefCounts(files, slot, s);
      assert Refs(procs, n, s) == RefCount(files, s);
    }
  }

  lemma {:induction false} HeldAtMost(procs: Procs, n: nat, p: nat, s: nat)
    requires p < n
    ensures HeldBy(procs, p, s) <= Refs(procs, n, s)
    decreases n
  {
    if p < n - 1 {
      HeldAtMost(procs, n - 1, p, s);
    }
  }

  /** A read moves the offset forward within the file. */
  lemma OffsetKeepsFiles(k: Kernel, slot: nat, len: nat)
    requires FilesOk(k.procs, k.nextPid, k.files, k.lim) && slot < |k.files| && k.files[slot].Some?
    ensures
      var f := k.files[slot].value;
      FilesOk(k.procs, k.nextPid, k.files[slot := Some(f.(offset := f.offset + |ReadChunk(k, f, len)|))], k.lim)
  {
    var f := k.files[slot].value;
    assert FileOk(f, k.lim);
    var files' := k.files[slot := Some(f.(offset := f.offset + |ReadChunk(k, f, len)|))];
    forall s: nat ensures Refs(k.procs, k.nextPid, s) == RefCount(files', s) {
      assert Refs(k.procs, k.nextPid, s) == RefCount(k.files, s);
    }
  }

  /** read: bytes into the caller's memory and a new offset within the file. */
  lemma ReadKeepsInv(k: Kernel, fd: nat, buf: nat, len: nat)
    requires Inv(k)
    ensures Inv(SysRead(k, fd, buf, len).0)
  {
    hide Inv, FilesOk, CopyOut, SpaceOf, SameShape, ReadChunk;
    if CurrentPid(k).Some? && FileOf(k, CurrentPid(k).value, fd).Some? {
      var pid := CurrentPid(k).value;
      var slot := FileOf(k, pid, fd).value;
      var chunk := ReadChunk(k, k.files[slot].value, len);
      var (space, error) := CopyOut(SpaceOf(k, pid), buf, chunk, Write);
      CopyOutExact(SpaceOf(k, pid), buf, chunk, Write);
      BytesKeepInv(k, pid, space);
      FilesPart(k);
      OffsetKeepsFiles(k, slot, len);
      FilesKeepInv(SetSpace(k, pid, space), k.files[slot := Some(k.files[slot].value.(offset := k.files[slot].value.offset + |chunk|))]);
    }
  }
}

/** Waiting and reaping keep the invariant; what completing a wait does. */
module WaitSteps {
  import opened Base
  import opened UserSpaces
  import opened UserLayout
  import opened Files
  import opened Processes
  import opened Kernel
  import opened Invariants
  import opened Preservation

  // ----- a zombie leaves the table -----

  /** Zombie `z` is gone, from the table and perhaps from child lists; nothing else. */
  ghost predicate Reaped(procs: Procs, procs': Procs, z: nat) {
    && procs'.Keys == procs.Keys - {z}
    && forall p | p in procs' ::
         && procs'[p] == procs[p].(children := procs'[p].children)
         && forall c | c in procs[p].children && c != z :: c in procs'[p].children
  }

  lemma ReapedPids(tasks: seq<Task>, procs: Procs, procs': Procs, n: nat, lim: Limits, z: nat)
    requires PidsOk(tasks, procs, n, lim) && IsZombie(procs, z) && Reaped(procs, procs', z)
    ensures PidsOk(tasks, procs', n, lim)
  {
    assert MainTaskOk(tasks, procs[z], z, n);
    forall p | p in procs' ensures MainTaskOk(tasks, procs'[p], p, n) {
      assert MainTaskOk(tasks, procs[p], p, n);
    }
  }

  lemma ReapedWaits(tasks: seq<Task>, procs: Procs, procs': Procs, spaces: map<nat, UserSpace>, n: nat, lim: Limits,
          z: nat)
    requires WaitsOk(tasks, procs, spaces, Some(z)) && PidsOk(tasks, procs, n, lim)
    requires IsZombie(procs, z) && Reaped(procs, procs', z)
    requires forall i | 0 <= i < |tasks| :: !BlockedOn(tasks[i], z)
    ensures WaitsOk(tasks, procs', spaces, None)
  {
    assert MainTaskOk(tasks, procs[z], z, n);
    forall i | 0 <= i < |tasks| ensures WaitOk(tasks[i], procs', spaces) {
      assert WaitOk(tasks[i], procs, spaces);
    }
  }

  lemma ReapedFiles(procs: Procs, procs': Procs, n: nat, files: FileSlots, lim: Limits, z: nat)
    requires FilesOk(procs, n, files, lim) && IsZombie(procs, z) && Reaped(procs, procs', z)
    ensures FilesOk(procs', n, files, lim)
  {
    forall s: nat ensures Refs(procs', n, s) == RefCount(files, s) {
      forall q: nat | q < n ensures HeldBy(procs', q, s) == HeldBy(procs, q, s) {
        if q == z {
          CountOfNone(procs[z].fds, s);
        }
      }
      SameHoldings(procs, procs', n, s);
      assert Refs(procs, n, s) == RefCount(files, s);
    }
  }

  lemma ReapedSpaces(procs: Procs, procs': Procs, spaces: map<nat, UserSpace>, unclaimed: set<nat>, kernelRoot: nat,
          z: nat)
    requires SpacesOk(procs, spaces, unclaimed, kernelRoot) && HeapsOk(procs, spaces) && Reaped(procs, procs', z)
    ensures SpacesOk(procs', spaces, unclaimed, kernelRoot) && HeapsOk(procs', spaces)
  {
    hide HeapOk, HeapMapped;
  }

  lemma ReapKeepsCore(k: Kernel, procs': Procs, z: nat)
    requires Core(k, Some(z)) && IsZombie(k.procs, z) && Reaped(k.procs, procs', z)
    requires FamilyOk(procs') && OrphansAlive(procs', None)
    requires forall i | 0 <= i < |k.tasks| :: !BlockedOn(k.tasks[i], z)
    ensures Core(k.(procs := procs'), None)
  {
    hide PidsOk, FamilyOk, OrphansAlive, WaitsOk, FilesOk, SpacesOk, HeapsOk, Reaped;
    ReapedPids(k.tasks, k.procs, procs', k.nextPid, k.lim, z);
    ReapedWaits(k.tasks, k.procs, procs', k.spaces, k.nextPid, k.lim, z);
    ReapedFiles(k.procs, procs', k.nextPid, k.files, k.lim, z);
    ReapedSpaces(k.procs, procs', k.spaces, k.unclaimed, k.lim.kernelRoot, z);
  }

  lemma ReapChildReaps(procs: Procs, parent: nat, z: nat)
    requires FamilyOk(procs) && IsChild(procs, parent, z) && OrphansAlive(procs, Some(z))
    ensures Reaped(procs, ReapChild(procs, parent, z), z)
    ensures FamilyOk(ReapChild(procs, parent, z)) && OrphansAlive(ReapChild(procs, parent, z), None)
  {
    ReapChildFamily(procs, parent, z);
  }

  // ----- completing a wait -----

  /** The parent's memory once the status is stored. */
  function StatusWritten(s: UserSpace, statusPtr: Option<nat>, exit: ProcessExit): UserSpace {
    match statusPtr
    case None => s
    case Some(ptr) => CopyOut(s, ptr, StatusBytes(exit), Write).0
  }

  /** Task `w` may be told about its child `z`: everything `complete_wait` checks
      holds. */
  ghost predicate CanComplete(k: Kernel, w: nat, z: nat, statusPtr: Option<nat>) {
    && w < |k.tasks| && k.tasks[w].pid.Some?
    && IsZombie(k.procs, z) && IsChild(k.procs, k.tasks[w].pid.value, z)
    && k.procs[k.tasks[w].pid.value].root in k.spaces
    && (statusPtr.Some? ==> RangeOk(SpaceOf(k, k.tasks[w].pid.value), statusPtr.value, STATUS_SIZE, Write))
  }

  /** Then it does what it should: status stored, child reaped, pid returned. */
  lemma CompleteWaitExact(k: Kernel, w: nat, z: nat, statusPtr: Option<nat>)
    requires CanComplete(k, w, z, statusPtr)
    ensures
      var parent := k.tasks[w].pid.value;
      var root := k.procs[parent].root;
      var s := StatusWritten(k.spaces[root], statusPtr, k.procs[z].state.exit);
      && SameShape(k.spaces[root], s)
      && CompleteWait(k, w, z, statusPtr) ==
           k.(tasks := k.tasks[w := k.tasks[w].(rax := z)],
              spaces := k.spaces[root := s],
              procs := ReapChild(k.procs, parent, z))
  {
    hide ReapChild, RangeOk, CopyOut;
    var parent := k.tasks[w].pid.value;
    var root := k.procs[parent].root;
    if statusPtr.Some? {
      CopyOutExact(k.spaces[root], statusPtr.value, StatusBytes(k.procs[z].state.exit), Write);
    } else {
      assert k.spaces[root := k.spaces[root]] == k.spaces;
    }
  }

  /** Telling a task about its child and reaping the child keeps the invariant. */
  lemma CompleteKeepsCore(k: Kernel, w: nat, z: nat, statusPtr: Option<nat>)
    requires Core(k, Some(z)) && CanComplete(k, w, z, statusPtr)
    requires forall i | 0 <= i < |k.tasks| :: !BlockedOn(k.tasks[i], z)
    ensures Core(CompleteWait(k, w, z, statusPtr), None)
  {
    hide PidsOk, FamilyOk, OrphansAlive, WaitsOk, FilesOk, SpacesOk, HeapsOk, CompleteWait, StatusWritten, SameShape,
         ReapChild, Reaped;
    CompleteWaitExact(k, w, z, statusPtr);
    var parent := k.tasks[w].pid.value;
    var s := StatusWritten(k.spaces[k.procs[parent].root], statusPtr, k.procs[z].state.exit);
    var k1 := SetRax(k, w, z);
    SameTasksKeepCore(k, k1, Some(z));
    BytesKeepCore(k1, parent, s, Some(z));
    var k2 := SetSpace(k1, parent, s);
    ReapChildReaps(k.procs, parent, z);
    ReapKeepsCore(k2, ReapChild(k.procs, parent, z), z);
  }

  // ----- waitpid -----

  lemma BlockKeepsCore(k: Kernel, i: nat, child: nat, statusPtr: Option<nat>)
    requires Core(k, None) && i < |k.tasks| && k.tasks[i].state == Running && k.tasks[i].pid.Some?
    requires WaitAllowed(k, k.tasks[i].pid.value, child, statusPtr)
    requires child in k.procs && k.procs[child].state.Alive?
    ensures Core(SetState(k, i, Blocked(child, statusPtr)), None)
  {
    hide FamilyOk, OrphansAlive, FilesOk, HeapsOk, RangeOk;
    var tasks' := SetState(k, i, Blocked(child, statusPtr)).tasks;
    assert PidsOk(tasks', k.procs, k.nextPid, k.lim) by {
      hide WaitsOk, SpacesOk, WaitAllowed;
      forall p | p in k.procs ensures MainTaskOk(tasks', k.procs[p], p, k.nextPid) {
        assert MainTaskOk(k.tasks, k.procs[p], p, k.nextPid);
      }
    }
    hide PidsOk;
    forall j | 0 <= j < |tasks'| ensures WaitOk(tasks'[j], k.procs, k.spaces) {
      assert WaitOk(k.tasks[j], k.procs, k.spaces);
    }
  }

  /** A child in a list is in the table. */
  lemma ChildListed(k: Kernel, parent: nat, child: nat)
    requires Inv(k) && IsChild(k.procs, parent, child)
    ensures child in k.procs && k.procs[parent].root in k.spaces && parent < child
  {
    hide PidsOk, OrphansAlive, WaitsOk, FilesOk, HeapsOk, CurrentOk;
    assert k.procs[child].parent == Some(parent);
  }

  lemma ZombieUnwaited(k: Kernel, z: nat)
    requires Inv(k) && IsZombie(k.procs, z)
    ensures Core(k, Some(z)) && forall i | 0 <= i < |k.tasks| :: !BlockedOn(k.tasks[i], z)
  {
    hide PidsOk, FamilyOk, FilesOk, SpacesOk, HeapsOk, CurrentOk;
    forall i | 0 <= i < |k.tasks| ensures !BlockedOn(k.tasks[i], z) {
      assert WaitOk(k.tasks[i], k.procs, k.spaces);
    }
  }

  lemma OnlyCurrentRuns(k: Kernel, state: TaskState)
    requires Inv(k) && HasCurrent(k) && state != Running
    ensures k.tasks[k.current.value].state == Running
    ensures NoneRunning(SetState(k, k.current.value, state).tasks)
  {
    hide Core;
  }

  lemma PollKeepsCurrent(k: Kernel, child: nat, statusPtr: Option<nat>)
    requires CurrentOk(k) && HasCurrent(k) && CanComplete(k, k.current.value, child, statusPtr)
    requires CurrentPid(k).value != child
    ensures CurrentOk(CompleteWait(k, k.current.value, child, statusPtr))
  {
    hide CompleteWait, StatusWritten, SameShape, RangeOk;
    CompleteWaitExact(k, k.current.value, child, statusPtr);
  }

  lemma PollKeepsInv(k: Kernel, child: nat, statusPtr: Option<nat>)
    requires Inv(k) && HasCurrent(k) && CurrentPid(k).Some? && IsZombie(k.procs, child)
    requires WaitAllowed(k, CurrentPid(k).value, child, statusPtr)
    ensures Inv(CompleteWait(k, k.current.value, child, statusPtr))
  {
    hide Core, CurrentOk, CompleteWait, RangeOk;
    var i := k.current.value;
    ZombieUnwaited(k, child);
    ChildListed(k, CurrentPid(k).value, child);
    CompleteKeepsCore(k, i, child, statusPtr);
    PollKeepsCurrent(k, child, statusPtr);
  }

  lemma WaitKeepsInv(k: Kernel, child: nat, statusPtr: Option<nat>, options: nat)
    requires Inv(k)
    ensures Inv(WaitPid(k, child, statusPtr, options))
  {
    hide Inv, WaitAllowed, CompleteWait, PickNext, Core;
    if HasCurrent(k) {
      var i := k.current.value;
      forall v: nat ensures Inv(SetRax(k, i, v)) {
        RegistersKeepInv(k, i, k.tasks[i].(rax := v));
      }
    }
    if CurrentPid(k).Some? && WaitAllowed(k, CurrentPid(k).value, child, statusPtr) && child in k.procs {
      if k.procs[child].state.Zombie? {
        PollKeepsInv(k, child, statusPtr);
      } else {
        BlockKeepsInv(k, child, statusPtr);
      }
    }
  }

  lemma BlockKeepsInv(k: Kernel, child: nat, statusPtr: Option<nat>)
    requires Inv(k) && HasCurrent(k) && CurrentPid(k).Some? && child in k.procs && k.procs[child].state.Alive?
    requires WaitAllowed(k, CurrentPid(k).value, child, statusPtr)
    ensures Inv(PickNext(SetState(k, k.current.value, Blocked(child, statusPtr)), k.current.value))
  {
    hide Core, CurrentOk, WaitAllowed, PickNext;
    OnlyCurrentRuns(k, Blocked(child, statusPtr));
    BlockKeepsCore(k, k.current.value, child, statusPtr);
    PickNextKeepsInv(SetState(k, k.current.value, Blocked(child, statusPtr)), k.current.value);
  }
}

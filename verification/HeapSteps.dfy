/** Moving the program break keeps the invariant, and what it does to memory. */
module HeapSteps {
  import opened Base
  import opened UserSpaces
  import opened UserLayout
  import opened Files
  import opened Processes
  import opened Kernel
  import opened Invariants
  import opened Preservation

  lemma SameFdsKeepFiles(procs: Procs, procs': Procs, n: nat, files: FileSlots, lim: Limits)
    requires FilesOk(procs, n, files, lim) && SameBones(procs, procs')
    requires forall p | p in procs :: procs'[p].fds == procs[p].fds
    ensures FilesOk(procs', n, files, lim)
  {
    forall s: nat ensures Refs(procs', n, s) == RefCount(files, s) {
      forall q: nat ensures HeldBy(procs', q, s) == HeldBy(procs, q, s) {
      }
      SameHoldings(procs, procs', n, s);
      assert Refs(procs, n, s) == RefCount(files, s);
    }
  }

  ghost predicate NotWaiting(tasks: seq<Task>, pid: nat) {
    forall i | 0 <= i < |tasks| && tasks[i].state.Blocked? :: tasks[i].pid != Some(pid)
  }

  /** Remapping pages of a process that is not waiting disturbs no waiter. */
  lemma OtherSpaceKeepsWaits(tasks: seq<Task>, procs: Procs, spaces: map<nat, UserSpace>, unclaimed: set<nat>,
          kernelRoot: nat, pid: nat, s: UserSpace)
    requires WaitsOk(tasks, procs, spaces, None) && SpacesOk(procs, spaces, unclaimed, kernelRoot)
    requires pid in procs && NotWaiting(tasks, pid)
    ensures WaitsOk(tasks, procs, spaces[procs[pid].root := s], None)
  {
    forall i | 0 <= i < |tasks| ensures WaitOk(tasks[i], procs, spaces[procs[pid].root := s]) {
      assert WaitOk(tasks[i], procs, spaces);
    }
  }

  lemma HeapOfOneKeepsHeaps(procs: Procs, spaces: map<nat, UserSpace>, unclaimed: set<nat>, kernelRoot: nat,
          pid: nat, s: UserSpace, heap: UserHeap)
    requires HeapsOk(procs, spaces) && SpacesOk(procs, spaces, unclaimed, kernelRoot) && pid in procs
    requires HeapOk(heap) && HeapMapped(s, heap)
    ensures HeapsOk(procs[pid := procs[pid].(heap := heap)], spaces[procs[pid].root := s])
  {
    hide HeapOk, HeapMapped;
  }

  lemma HeapKeepsCore(k: Kernel, pid: nat, s: UserSpace, heap: UserHeap)
    requires Core(k, None) && pid in k.procs && NotWaiting(k.tasks, pid)
    requires HeapOk(heap) && HeapMapped(s, heap)
    ensures Core(k.(procs := k.procs[pid := k.procs[pid].(heap := heap)], spaces := k.spaces[k.procs[pid].root := s]), None)
  {
    hide PidsOk, FamilyOk, OrphansAlive, WaitsOk, FilesOk, HeapsOk, HeapOk, HeapMapped, NotWaiting;
    var procs', root := k.procs[pid := k.procs[pid].(heap := heap)], k.procs[pid].root;
    assert SameBones(k.procs, procs');
    BonesKeepPids(k.tasks, k.procs, procs', k.nextPid, k.lim);
    BonesKeepFamily(k.procs, procs');
    OtherSpaceKeepsWaits(k.tasks, k.procs, k.spaces, k.unclaimed, k.lim.kernelRoot, pid, s);
    BonesKeepWaits(k.tasks, k.procs, procs', k.spaces[root := s]);
    SameFdsKeepFiles(k.procs, procs', k.nextPid, k.files, k.lim);
    HeapOfOneKeepsHeaps(k.procs, k.spaces, k.unclaimed, k.lim.kernelRoot, pid, s, heap);
  }

  /** The pages and the bookkeeping after the three ways a break can move. */
  ghost function Moved(s: UserSpace, h: UserHeap, requested: nat, newEnd: nat): UserSpace {
    if requested > h.brk && newEnd > h.mappedEnd
    then ZeroPages(s, h.mappedEnd / PAGE_SIZE, newEnd / PAGE_SIZE, true)
    else if requested < h.brk && newEnd < h.mappedEnd
    then WithoutPages(s, newEnd / PAGE_SIZE, h.mappedEnd / PAGE_SIZE)
    else s
  }

  lemma RequestAligns(h: UserHeap, requested: nat)
    requires HeapOk(h) && h.start <= requested <= h.limit
    ensures AlignUp(requested).Some? && HeapOk(h.(brk := requested, mappedEnd := AlignUp(requested).value))
    ensures requested >= h.brk ==> AlignUp(requested).value >= h.mappedEnd
    ensures requested <= h.brk ==> AlignUp(requested).value <= h.mappedEnd
  {
    AlignedFixed(h.limit);
    AlignUpMonotone(requested, h.limit);
    if requested >= h.brk {
      AlignUpMonotone(h.brk, requested);
    } else {
      AlignUpMonotone(requested, h.brk);
    }
  }

  lemma MovedIsMapped(s: UserSpace, h: UserHeap, requested: nat)
    requires HeapOk(h) && HeapMapped(s, h) && h.start <= requested <= h.limit
    ensures AlignUp(requested).Some?
    ensures
      var newEnd := AlignUp(requested).value;
      HeapMapped(Moved(s, h, requested, newEnd), h.(brk := requested, mappedEnd := newEnd))
  {
    RequestAligns(h, requested);
    hide HeapOk, AlignUp;
  }

  /** Process `pid` with its break and pages moved. */
  ghost function WithBreak(k: Kernel, pid: nat, requested: nat, newEnd: nat): Kernel
    requires pid in k.procs && k.procs[pid].root in k.spaces
  {
    var h, root := k.procs[pid].heap, k.procs[pid].root;
    k.(procs := k.procs[pid := k.procs[pid].(heap := h.(brk := requested, mappedEnd := newEnd))],
       spaces := k.spaces[root := Moved(k.spaces[root], h, requested, newEnd)])
  }

  lemma MoveBreakExact(k: Kernel, pid: nat, requested: nat, newEnd: nat, granted: bool)
    requires pid in k.procs && k.procs[pid].root in k.spaces
    ensures
      var h := k.procs[pid].heap;
      MoveBreak(k, pid, requested, newEnd, granted) ==
        if requested > h.brk && newEnd > h.mappedEnd && !granted then (k, Err(NoMemory))
        else (WithBreak(k, pid, requested, newEnd), Ok(requested))
  {
    var root := k.procs[pid].root;
    assert k.spaces[root := k.spaces[root]] == k.spaces;
  }

  /** brk, for a running user task: zero asks for the break; a request outside the
      heap's window is refused; any other request is met, unless it needs new pages and
      frames have run out. */
  lemma BrkExact(k: Kernel, requested: nat, granted: bool)
    requires Inv(k) && CurrentPid(k).Some?
    ensures
      var pid := CurrentPid(k).value;
      pid in k.procs && k.procs[pid].root in k.spaces && HeapOk(k.procs[pid].heap) &&
      var h := k.procs[pid].heap;
      && HeapMapped(k.spaces[k.procs[pid].root], h)
      && (h.start <= requested <= h.limit ==> AlignUp(requested).Some?)
      && SysBrk(k, requested, granted) ==
           if requested == 0 || requested == h.brk then (k, Ok(h.brk))
           else if requested < h.start then (k, Err(Invalid))
           else if requested > h.limit then (k, Err(NoMemory))
           else if AlignUp(requested).value > h.mappedEnd && !granted then (k, Err(NoMemory))
           else (WithBreak(k, pid, requested, AlignUp(requested).value), Ok(requested))
  {
    hide Inv, HeapOk, HeapMapped, AlignUp, MoveBreak, WithBreak;
    LiveProcess(k);
    HeapsPart(k);
    var pid := CurrentPid(k).value;
    var h := k.procs[pid].heap;
    HeapBounds(h);
    if h.start <= requested <= h.limit {
      RequestAligns(h, requested);
      MoveBreakExact(k, pid, requested, AlignUp(requested).value, granted);
    }
  }

  lemma HeapBounds(h: UserHeap)
    requires HeapOk(h)
    ensures 0 < h.start <= h.brk <= h.limit
  {
  }

  lemma HeapsPart(k: Kernel)
    requires Inv(k)
    ensures HeapsOk(k.procs, k.spaces)
  {
    hide PidsOk, FamilyOk, OrphansAlive, WaitsOk, FilesOk, SpacesOk, HeapsOk, CurrentOk;
  }

  lemma CurrentNotWaiting(k: Kernel)
    requires Inv(k) && CurrentPid(k).Some?
    ensures NotWaiting(k.tasks, CurrentPid(k).value)
  {
    hide FamilyOk, OrphansAlive, WaitsOk, FilesOk, SpacesOk, HeapsOk, MainTaskOk;
    var i := k.current.value;
    assert k.tasks[i].state == Running;
    forall j | 0 <= j < |k.tasks| && k.tasks[j].state.Blocked? ensures k.tasks[j].pid != k.tasks[i].pid {
    }
  }

  lemma HeapKeepsInv(k: Kernel, pid: nat, s: UserSpace, heap: UserHeap)
    requires Inv(k) && pid in k.procs && NotWaiting(k.tasks, pid)
    requires HeapOk(heap) && HeapMapped(s, heap)
    ensures Inv(k.(procs := k.procs[pid := k.procs[pid].(heap := heap)], spaces := k.spaces[k.procs[pid].root := s]))
  {
    hide Core, HeapOk, HeapMapped, NotWaiting;
    HeapKeepsCore(k, pid, s, heap);
  }

  lemma BrkKeepsInv(k: Kernel, requested: nat, granted: bool)
    requires Inv(k)
    ensures Inv(SysBrk(k, requested, granted).0)
  {
    hide Inv, HeapOk, HeapMapped, AlignUp, NotWaiting, MoveBreak;
    if CurrentPid(k).Some? {
      BrkExact(k, requested, granted);
      hide SysBrk, Moved;
      var pid := CurrentPid(k).value;
      var h, s := k.procs[pid].heap, k.spaces[k.procs[pid].root];
      if h.start <= requested <= h.limit {
        RequestAligns(h, requested);
        MovedIsMapped(s, h, requested);
        CurrentNotWaiting(k);
        var newEnd := AlignUp(requested).value;
        HeapKeepsInv(k, pid, Moved(s, h, requested, newEnd), h.(brk := requested, mappedEnd := newEnd));
      }
    }
  }
}

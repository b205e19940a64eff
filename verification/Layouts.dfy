/** Memory over whole runs: which steps may touch which address space, what brk does
    to bytes, and the layout every process keeps. */
module Layouts {
  import opened Base
  import opened LittleEndian
  import opened UserSpaces
  import opened UserLayout
  import opened ElfFormat
  import opened ElfLoader
  import opened Processes
  import opened Kernel
  import opened Invariants
  import opened HeapSteps
  import opened WaitSteps
  import opened Runs
  import opened Transitions
  import opened Reporting
  import SpawnSteps

  // ----- who may write where -----

  /** The level-4 frame of the address space task `i` runs in. */
  predicate IsRootOf(k: Kernel, i: nat, root: nat) {
    i < |k.tasks| && k.tasks[i].pid.Some? && k.tasks[i].pid.value in k.procs && k.procs[k.tasks[i].pid.value].root == root
  }

  /** A step can change user memory only of the process that makes the call, of a task
      named by the kernel, or of a parent that is told of its child's end. */
  ghost predicate MayWrite(k: Kernel, e: Event, root: nat) {
    match e
    case ReadFd(_, _, _) | Brk(_, _) | UserStore(_, _) | Wait(_, _, _) => k.current.Some? && IsRootOf(k, k.current.value, root)
    case CopyToTask(t, _, _) => IsRootOf(k, t, root)
    case Exit(_) | UserFault(_) =>
      EndedPid(k, e).Some? && exists w: nat :: IsRootOf(k, w, root) && BlockedOn(k.tasks[w], EndedPid(k, e).value)
    case _ => false
  }

  /** Address space `root` after a step: the same pages with the same permissions unless
      the step is a brk, the same bytes unless the step may write there, and read-only
      pages untouched in any case. */
  ghost predicate SpaceStep(k: Kernel, e: Event, k': Kernel, root: nat) {
    && root in k.spaces && root in k'.spaces
    && (!e.Brk? ==> SameShape(k.spaces[root], k'.spaces[root]))
    && (!MayWrite(k, e, root) ==> k'.spaces[root] == k.spaces[root])
    && KeepsReadOnly(k.spaces[root], k'.spaces[root])
  }

  /** `after` is `before` with at most the address space of process `pid` changed. */
  ghost predicate OnlySpaceOf(k: Kernel, pid: nat, after: map<nat, UserSpace>) {
    && pid in k.procs && k.procs[pid].root in k.spaces && k.procs[pid].root in after
    && after == k.spaces[k.procs[pid].root := after[k.procs[pid].root]]
  }

  lemma ReadSpaces(k: Kernel, fd: nat, buf: nat, len: nat)
    requires HasCurrent(k)
    ensures
      var k' := SysRead(k, fd, buf, len).0;
      k'.spaces == k.spaces ||
      (CurrentPid(k).Some? && OnlySpaceOf(k, CurrentPid(k).value, k'.spaces)
       && SameShape(SpaceOf(k, CurrentPid(k).value), SpaceOf(k', CurrentPid(k).value))
       && KeepsReadOnly(SpaceOf(k, CurrentPid(k).value), SpaceOf(k', CurrentPid(k).value)))
  {
    hide CopyOut, ReadChunk, SameShape, KeepsReadOnly;
    if CurrentPid(k).Some? && FileOf(k, CurrentPid(k).value, fd).Some? {
      var pid := CurrentPid(k).value;
      var f := k.files[FileOf(k, pid, fd).value].value;
      CopyOutExact(SpaceOf(k, pid), buf, ReadChunk(k, f, len), Write);
      CopyOutReadOnly(SpaceOf(k, pid), buf, ReadChunk(k, f, len));
    }
  }

  lemma PollSpaces(k: Kernel, e: Event, k': Kernel)
    requires Inv(k) && Next(k, e, k') && e.Wait? && HasCurrent(k)
    ensures
      k'.spaces == k.spaces ||
      (CurrentPid(k).Some? && OnlySpaceOf(k, CurrentPid(k).value, k'.spaces)
       && SameShape(k.spaces[k.procs[CurrentPid(k).value].root], k'.spaces[k.procs[CurrentPid(k).value].root])
       && KeepsReadOnly(k.spaces[k.procs[CurrentPid(k).value].root], k'.spaces[k.procs[CurrentPid(k).value].root]))
  {
    hide Inv, Reported, Next, Stored;
    if Reported(k, e).Some? {
      PollReports(k, e, k');
      StoredShape(k.spaces[k.procs[CurrentPid(k).value].root], k'.spaces[k.procs[CurrentPid(k).value].root], StatusAddress(e.statusAddress), k.procs[e.child].state.exit);
    } else {
      UnreportedTables(k, e, k');
    }
  }

  lemma StoredShape(s: UserSpace, t: UserSpace, statusPtr: Option<nat>, exit: ProcessExit)
    requires StatusStored(s, t, statusPtr, exit)
    ensures SameShape(s, t) && KeepsReadOnly(s, t)
  {
  }

  lemma SameSpaces(k: Kernel, e: Event, k': Kernel, root: nat)
    requires k'.spaces == k.spaces && root in k.spaces
    ensures SpaceStep(k, e, k', root)
  {
  }

  lemma OneSpace(k: Kernel, e: Event, k': Kernel, i: nat, root: nat)
    requires i < |k.tasks| && k.tasks[i].pid.Some? && OnlySpaceOf(k, k.tasks[i].pid.value, k'.spaces) && root in k.spaces
    requires
      var written := k.procs[k.tasks[i].pid.value].root;
      && (!e.Brk? ==> SameShape(k.spaces[written], k'.spaces[written]))
      && KeepsReadOnly(k.spaces[written], k'.spaces[written]) && MayWrite(k, e, written)
    ensures SpaceStep(k, e, k', root)
  {
  }

  lemma ReadSpaceStep(k: Kernel, e: Event, k': Kernel, root: nat)
    requires Next(k, e, k') && e.ReadFd? && root in k.spaces
    ensures SpaceStep(k, e, k', root)
  {
    hide SysRead, SameShape, KeepsReadOnly, SpaceStep;
    var k1 := SysRead(k, e.fd, e.buf, e.len).0;
    assert k'.spaces == k1.spaces && k1.procs == k.procs by { ReadProcs(k, e.fd, e.buf, e.len); }
    hide Step, Enabled;
    ReadSpaces(k, e.fd, e.buf, e.len);
    if k1.spaces == k.spaces {
      SameSpaces(k, e, k', root);
    } else {
      OneSpace(k, e, k', k.current.value, root);
    }
  }

  lemma WaitSpaceStep(k: Kernel, e: Event, k': Kernel, root: nat)
    requires Inv(k) && Next(k, e, k') && e.Wait? && root in k.spaces
    ensures SpaceStep(k, e, k', root)
  {
    hide Inv, SpaceStep, SameShape, KeepsReadOnly;
    assert HasCurrent(k);
    hide Next;
    PollSpaces(k, e, k');
    if k'.spaces == k.spaces {
      SameSpaces(k, e, k', root);
    } else {
      OneSpace(k, e, k', k.current.value, root);
    }
  }

  lemma EndSpaceStep(k: Kernel, e: Event, k': Kernel, root: nat)
    requires Inv(k) && Next(k, e, k') && EndedPid(k, e).Some? && root in k.spaces
    ensures SpaceStep(k, e, k', root)
  {
    hide Inv, Next, FindWaiter, StatusWritten, SameShape, KeepsReadOnly, SpaceStep, RangeOk, Stored, StatusStored;
    EndSpaces(k, e, k');
    var waiter := FindWaiter(k.tasks, EndedPid(k, e).value);
    if waiter.None? {
      SameSpaces(k, e, k', root);
    } else {
      var t := k.tasks[waiter.value];
      var written := k.procs[t.pid.value].root;
      StatusIsStored(k.spaces[written], t.state.statusPtr, EndStatus(e));
      StoredShape(k.spaces[written], k'.spaces[written], t.state.statusPtr, EndStatus(e));
      assert IsRootOf(k, waiter.value, written) && BlockedOn(k.tasks[waiter.value], EndedPid(k, e).value);
      OneSpace(k, e, k', waiter.value, root);
    }
  }

  lemma BrkSpaceStep(k: Kernel, e: Event, k': Kernel, root: nat)
    requires Inv(k) && Next(k, e, k') && e.Brk? && root in k.spaces
    ensures SpaceStep(k, e, k', root)
  {
    hide Inv, SysBrk, SpaceStep, HeapOk, HeapMapped, AlignUp, Moved, KeepsReadOnly;
    var (k1, r) := SysBrk(k, e.requested, e.granted);
    assert k'.spaces == k1.spaces;
    hide Step, Enabled;
    if CurrentPid(k).Some? {
      BrkExact(k, e.requested, e.granted);
      if k1 != k {
        var h, s := k.procs[CurrentPid(k).value].heap, k.spaces[k.procs[CurrentPid(k).value].root];
        MovedReadOnly(s, h, e.requested);
        OneSpace(k, e, k', k.current.value, root);
      } else {
        SameSpaces(k, e, k', root);
      }
    } else {
      KernelBrk(k, e.requested, e.granted);
      SameSpaces(k, e, k', root);
    }
  }

  /** Every page a brk removes is a heap page, and those are writable. */
  lemma MovedReadOnly(s: UserSpace, h: UserHeap, requested: nat)
    requires HeapOk(h) && HeapMapped(s, h) && h.start <= requested <= h.limit
    ensures AlignUp(requested).Some? && KeepsReadOnly(s, Moved(s, h, requested, AlignUp(requested).value))
  {
    RequestAligns(h, requested);
    hide AlignUp;
  }

  lemma KernelBrk(k: Kernel, requested: nat, granted: bool)
    requires HasCurrent(k) && CurrentPid(k).None?
    ensures SysBrk(k, requested, granted).0 == k
  {
  }

  lemma StoreSpaceStep(k: Kernel, e: Event, k': Kernel, root: nat)
    requires Next(k, e, k') && (e.UserStore? || e.CopyToTask?) && root in k.spaces
    ensures SpaceStep(k, e, k', root)
  {
    hide CopyOut, SpaceStep;
    match e
    case UserStore(a, b) =>
      var pid := CurrentPid(k).value;
      if pid in k.procs && k.procs[pid].root in k.spaces {
        OneSpace(k, e, k', k.current.value, root);
      } else {
        SameSpaces(k, e, k', root);
      }
    case CopyToTask(t, a, bytes) =>
      if IsRootOf(k, t, if t < |k.tasks| then RootOf(k, t) else 0) && RootOf(k, t) in k.spaces {
        CopyOutExact(SpaceOf(k, k.tasks[t].pid.value), a, bytes, Write);
        CopyOutReadOnly(SpaceOf(k, k.tasks[t].pid.value), a, bytes);
        OneSpace(k, e, k', t, root);
      } else {
        SameSpaces(k, e, k', root);
      }
  }

  predicate LeavesSpaces(e: Event) {
    || e.SpawnTask? || e.Spawn? || e.Run? || e.Timer? || e.Yield? || e.SyscallYield? || e.KernelTaskReturns?
    || e.GetPid? || e.Open? || e.WriteFd? || e.Close? || e.UnknownSyscall? || e.SetArgument? || e.SetPreemption?
  }

  lemma OtherSpaces(k: Kernel, e: Event)
    requires Enabled(k, e) && LimitsOk(k.lim) && LeavesSpaces(e)
    ensures Step(k, e).spaces == k.spaces
  {
    hide SysOpen, SysWrite, SysClose, SpawnProcess, PickNext, Switch, StartRunning;
  }

  lemma KernelExitSpaces(k: Kernel, e: Event)
    requires Enabled(k, e) && LimitsOk(k.lim) && (e.Exit? || e.UserFault?) && EndedPid(k, e).None?
    ensures Step(k, e).spaces == k.spaces
  {
    hide PickNext;
  }

  /** Isolation, step by step: no step changes the mapping of an address space other
      than by a brk of its own process, or a byte of it unless it may write there. */
  lemma StepSpaces(k: Kernel, e: Event, k': Kernel, root: nat)
    requires Inv(k) && Next(k, e, k') && root in k.spaces
    ensures SpaceStep(k, e, k', root)
  {
    hide Inv, Enabled, Step, SpaceStep;
    match e
    case ReadFd(_, _, _) => ReadSpaceStep(k, e, k', root);
    case Brk(_, _) => BrkSpaceStep(k, e, k', root);
    case UserStore(_, _) | CopyToTask(_, _, _) => StoreSpaceStep(k, e, k', root);
    case Wait(_, _, _) => WaitSpaceStep(k, e, k', root);
    case Exit(_) | UserFault(_) =>
      if EndedPid(k, e).Some? {
        EndSpaceStep(k, e, k', root);
      } else {
        KernelExitSpaces(k, e);
        SameSpaces(k, e, k', root);
      }
    case MakeSpace(_, _) => NewSpaceStep(k, e, k', root);
    case _ =>
      OtherSpaces(k, e);
      SameSpaces(k, e, k', root);
  }

  lemma NewSpaceStep(k: Kernel, e: Event, k': Kernel, root: nat)
    requires Next(k, e, k') && e.MakeSpace? && root in k.spaces
    ensures SpaceStep(k, e, k', root)
  {
  }

  // ----- brk -----

  /** What a successful brk leaves: exactly the pages up to the new end in the heap's
      window, every byte that was there before and still is unchanged, every new byte
      zero. */
  lemma MovedBytes(s: UserSpace, h: UserHeap, requested: nat)
    requires HeapOk(h) && HeapMapped(s, h) && h.start <= requested <= h.limit
    ensures AlignUp(requested).Some?
    ensures
      var newEnd := AlignUp(requested).value;
      var t := Moved(s, h, requested, newEnd);
      && (forall p: nat :: p in t <==>
            if h.start / PAGE_SIZE <= p < h.limit / PAGE_SIZE then p < newEnd / PAGE_SIZE else p in s)
      && (forall p | p in t :: t[p] == if p in s then s[p] else ZeroPage(true))
  {
    RequestAligns(h, requested);
    hide HeapOk, AlignUp;
  }

  /** brk either fails and changes nothing but the return value, or moves the break and
      gives the bytes `MovedBytes` describes. It cannot fail inside the window unless
      pages are needed and frames are not granted. */
  lemma BrkAtomic(k: Kernel, e: Event, k': Kernel)
    requires Inv(k) && Next(k, e, k') && e.Brk? && CurrentPid(k).Some?
    ensures
      var pid := CurrentPid(k).value;
      && pid in k.procs && pid in k'.procs && k.procs[pid].root in k.spaces && k.procs[pid].root in k'.spaces
      && var h, h' := k.procs[pid].heap, k'.procs[pid].heap;
         && (k'.spaces != k.spaces || k'.procs != k.procs ==>
               && h.start <= e.requested <= h.limit && AlignUp(e.requested).Some?
               && h' == h.(brk := e.requested, mappedEnd := AlignUp(e.requested).value)
               && k'.spaces[k.procs[pid].root] == Moved(k.spaces[k.procs[pid].root], h, e.requested, h'.mappedEnd))
         && (h.start <= e.requested <= h.limit && (e.granted || e.requested <= h.mappedEnd) ==> h'.brk == e.requested)
  {
    hide Inv, SysBrk, HeapOk, HeapMapped, AlignUp, Moved;
    var (k1, r) := SysBrk(k, e.requested, e.granted);
    assert k'.spaces == k1.spaces && k'.procs == k1.procs;
    hide Step, Enabled;
    BrkExact(k, e.requested, e.granted);
    var h := k.procs[CurrentPid(k).value].heap;
    HeapBounds(h);
    if h.start <= e.requested <= h.limit && e.requested <= h.mappedEnd {
      FitsMapped(h, e.requested);
    }
  }

  lemma FitsMapped(h: UserHeap, requested: nat)
    requires HeapOk(h) && h.start <= requested <= h.mappedEnd
    ensures AlignUp(requested).Some? && AlignUp(requested).value <= h.mappedEnd
  {
    AlignedFixed(h.mappedEnd);
    AlignUpMonotone(requested, h.mappedEnd);
  }

  // ----- the layout of a process -----

  /** The same pages with the same permissions outside the heap's window. */
  ghost predicate SameOutside(s: UserSpace, t: UserSpace, h: UserHeap) {
    forall p: nat | !(h.start / PAGE_SIZE <= p < h.limit / PAGE_SIZE) ::
      (p in t <==> p in s) && (p in s ==> t[p].writable == s[p].writable)
  }

  lemma MovedOutside(s: UserSpace, h: UserHeap, requested: nat)
    requires HeapOk(h) && HeapMapped(s, h) && h.start <= requested <= h.limit
    ensures AlignUp(requested).Some? && SameOutside(s, Moved(s, h, requested, AlignUp(requested).value), h)
  {
    hide HeapOk, HeapMapped, AlignUp, Moved;
    MovedBytes(s, h, requested);
  }

  /** A process's frame of reference: its address space and heap window never change,
      nor does the mapping outside that window. */
  ghost predicate SameLayout(k: Kernel, k': Kernel, p: nat) {
    && p in k.procs && p in k'.procs && k'.procs[p].root == k.procs[p].root
    && k'.procs[p].heap.start == k.procs[p].heap.start && k'.procs[p].heap.limit == k.procs[p].heap.limit
    && k.procs[p].root in k.spaces && k.procs[p].root in k'.spaces
    && SameOutside(k.spaces[k.procs[p].root], k'.spaces[k.procs[p].root], k.procs[p].heap)
  }

  lemma RootInSpaces(k: Kernel, p: nat)
    requires Inv(k) && p in k.procs
    ensures k.procs[p].root in k.spaces && HeapOk(k.procs[p].heap) && HeapMapped(k.spaces[k.procs[p].root], k.procs[p].heap)
  {
    hide Inv, HeapOk, HeapMapped;
    HeapsPart(k);
  }

  lemma DistinctRoots(k: Kernel, p: nat, q: nat)
    requires Inv(k) && p in k.procs && q in k.procs && k.procs[p].root == k.procs[q].root
    ensures p == q
  {
    hide PidsOk, FamilyOk, OrphansAlive, WaitsOk, FilesOk, HeapsOk, CurrentOk;
  }

  lemma LayoutStep(k: Kernel, e: Event, k': Kernel, p: nat)
    requires Inv(k) && Next(k, e, k') && p in k.procs && p in k'.procs
    ensures SameLayout(k, k', p)
  {
    hide Inv, Next, Leaves, MayWrite, HeapOk, HeapMapped, AlignUp, Moved;
    StepProcs(k, e, k');
    RootInSpaces(k, p);
    var root := k.procs[p].root;
    StepSpaces(k, e, k', root);
    if e.Brk? && k'.spaces[root] != k.spaces[root] {
      BrkWritesOwn(k, e, root, p);
      BrkAtomic(k, e, k');
      MovedOutside(k.spaces[root], k.procs[p].heap, e.requested);
    }
  }

  lemma BrkWritesOwn(k: Kernel, e: Event, root: nat, p: nat)
    requires Inv(k) && e.Brk? && MayWrite(k, e, root) && p in k.procs && k.procs[p].root == root
    ensures HasCurrent(k) && CurrentPid(k) == Some(p)
  {
    hide Inv;
    DistinctRoots(k, p, k.tasks[k.current.value].pid.value);
  }

  /** Over any run: as long as a process is in the table, its mapped pages are the ones
      outside its heap window, which never change, and the heap's own up to the page
      that holds the break. */
  lemma {:induction false} LayoutForever(ks: seq<Kernel>, es: seq<Event>, a: nat, b: nat, p: nat)
    requires FromBoot(ks, es) && a <= b < |ks| && p in ks[a].procs && p in ks[b].procs
    ensures SameLayout(ks[a], ks[b], p)
    ensures
      var h := ks[b].procs[p].heap;
      && h.start <= h.brk <= h.mappedEnd <= h.limit && AlignUp(h.brk) == Some(h.mappedEnd)
      && forall page: nat :: page in ks[b].spaces[ks[b].procs[p].root] <==>
           if h.start / PAGE_SIZE <= page < h.limit / PAGE_SIZE then page < h.mappedEnd / PAGE_SIZE
           else page in ks[a].spaces[ks[a].procs[p].root]
    decreases b - a
  {
    hide Inv, Next, AlignUp;
    BootRunInv(ks, es, b);
    RootInSpaces(ks[b], p);
    if a < b {
      StaysBetween(ks, es, a, b, p);
      LayoutForever(ks, es, a, b - 1, p);
      RunStep(ks, es, b - 1);
      LayoutStep(ks[b - 1], es[b - 1], ks[b], p);
    }
  }

  /** A process in the table at two moments was in it in between. */
  lemma StaysBetween(ks: seq<Kernel>, es: seq<Event>, a: nat, b: nat, p: nat)
    requires FromBoot(ks, es) && a < b < |ks| && p in ks[a].procs && p in ks[b].procs
    ensures p in ks[b - 1].procs
  {
    hide Next;
    if p !in ks[b - 1].procs {
      StillBelow(ks, es, a, b - 1, p);
      GoneForever(ks, es, b - 1, b, p);
    }
  }

  lemma {:induction false} StillBelow(ks: seq<Kernel>, es: seq<Event>, a: nat, b: nat, p: nat)
    requires FromBoot(ks, es) && a <= b < |ks| && p in ks[a].procs
    ensures p < ks[b].nextPid
    decreases b - a
  {
    hide Inv, Next, Leaves, ProcStep;
    if a < b {
      StillBelow(ks, es, a, b - 1, p);
      RunStep(ks, es, b - 1);
      StepProcs(ks[b - 1], es[b - 1], ks[b]);
    } else {
      BootRunInv(ks, es, a);
      SpawnSteps.PidsBelow(ks[a]);
    }
  }

  /** A page that is not writable keeps its bytes as long as its process is in the table,
      whatever that process or any other does. */
  lemma {:induction false} ReadOnlyForever(ks: seq<Kernel>, es: seq<Event>, a: nat, b: nat, p: nat, page: nat)
    requires FromBoot(ks, es) && a <= b < |ks| && p in ks[a].procs && p in ks[b].procs
    requires ks[a].procs[p].root in ks[a].spaces && page in ks[a].spaces[ks[a].procs[p].root]
    requires !ks[a].spaces[ks[a].procs[p].root][page].writable
    ensures ks[b].procs[p].root == ks[a].procs[p].root && ks[a].procs[p].root in ks[b].spaces
    ensures page in ks[b].spaces[ks[a].procs[p].root]
    ensures ks[b].spaces[ks[a].procs[p].root][page] == ks[a].spaces[ks[a].procs[p].root][page]
    decreases b - a
  {
    hide Inv, Next, MayWrite, SameLayout;
    if a < b {
      StaysBetween(ks, es, a, b, p);
      ReadOnlyForever(ks, es, a, b - 1, p, page);
      RunStep(ks, es, b - 1);
      LayoutStep(ks[b - 1], es[b - 1], ks[b], p);
      StepSpaces(ks[b - 1], es[b - 1], ks[b], ks[a].procs[p].root);
      SameRoot(ks[b - 1], ks[b], p);
    }
  }

  lemma SameRoot(k: Kernel, k': Kernel, p: nat)
    requires SameLayout(k, k', p)
    ensures p in k.procs && p in k'.procs && k'.procs[p].root == k.procs[p].root
  {
  }

  /** Image, stack and heap are disjoint, so a program's pages are their union. */
  lemma ProgramPage(view: UserSpace, h: UserHeap, segments: seq<LoadSegment>, page: nat)
    requires ProgramLoaded(view, segments) && Aligned(h.start) && h.limit == USER_HEAP_LIMIT && h.mappedEnd <= h.limit
    requires forall i | 0 <= i < |segments| :: segments[i].mapEnd <= h.start
    ensures
      (if h.start / PAGE_SIZE <= page < h.limit / PAGE_SIZE then page < h.mappedEnd / PAGE_SIZE else page in view)
      <==> Covered(segments, page) || StackPage(page) || h.start / PAGE_SIZE <= page < h.mappedEnd / PAGE_SIZE
  {
    hide SegmentLoaded;
    if h.start / PAGE_SIZE <= page < h.limit / PAGE_SIZE {
      assert !StackPage(page);
      forall i | 0 <= i < |segments| ensures !SegmentPage(segments[i], page) {
      }
    }
  }

  lemma SegmentOutside(view: UserSpace, t: UserSpace, h: UserHeap, segments: seq<LoadSegment>, i: nat, page: nat)
    requires ProgramLoaded(view, segments) && SameOutside(view, t, h) && Aligned(h.start)
    requires i < |segments| && SegmentPage(segments[i], page) && segments[i].mapEnd <= h.start
    ensures page in t && t[page].writable == segments[i].Writable()
  {
    assert SegmentLoaded(view, segments[i]);
  }

  /** The program of a loaded process stays what it was: its mapped pages are those of its
      segments, its stack and its heap, and segments keep their permissions. */
  lemma ProgramForever(ks: seq<Kernel>, es: seq<Event>, a: nat, b: nat, p: nat, segments: seq<LoadSegment>)
    requires FromBoot(ks, es) && a <= b < |ks| && p in ks[a].procs && p in ks[b].procs
    requires ks[a].procs[p].root in ks[a].spaces && ProgramLoaded(ks[a].spaces[ks[a].procs[p].root], segments)
    requires ks[a].procs[p].heap.limit == USER_HEAP_LIMIT
    requires forall i | 0 <= i < |segments| :: segments[i].mapEnd <= ks[a].procs[p].heap.start
    ensures ks[b].procs[p].root in ks[b].spaces
    ensures
      var h, s := ks[b].procs[p].heap, ks[b].spaces[ks[b].procs[p].root];
      && (forall page: nat :: page in s <==>
            Covered(segments, page) || StackPage(page) || h.start / PAGE_SIZE <= page < h.mappedEnd / PAGE_SIZE)
      && (forall i: nat, page: nat | i < |segments| && SegmentPage(segments[i], page) ::
            page in s && s[page].writable == segments[i].Writable())
  {
    hide FromBoot, AlignUp, ProgramLoaded, SegmentPage, Covered, StackPage, SameOutside, Inv;
    LayoutForever(ks, es, a, b, p);
    BootRunInv(ks, es, b);
    RootInSpaces(ks[b], p);
    var h, s := ks[b].procs[p].heap, ks[b].spaces[ks[b].procs[p].root];
    var view := ks[a].spaces[ks[a].procs[p].root];
    forall page: nat
      ensures page in s <==>
                Covered(segments, page) || StackPage(page) || h.start / PAGE_SIZE <= page < h.mappedEnd / PAGE_SIZE
    {
      ProgramPage(view, h, segments, page);
    }
    forall i: nat, page: nat | i < |segments| && SegmentPage(segments[i], page)
      ensures page in s && s[page].writable == segments[i].Writable()
    {
      SegmentOutside(view, s, ks[a].procs[p].heap, segments, i, page);
    }
  }

  // ----- a told parent -----

  lemma OneTaskPerRoot(k: Kernel, i: nat, w: nat, root: nat)
    requires Inv(k) && IsRootOf(k, i, root) && IsRootOf(k, w, root)
    ensures i == w
  {
    DistinctRoots(k, k.tasks[i].pid.value, k.tasks[w].pid.value);
    hide FamilyOk, OrphansAlive, WaitsOk, FilesOk, SpacesOk, HeapsOk, CurrentOk, MainTaskOk;
  }

  /** While a task is ready nothing writes its memory, unless the kernel copies to it by
      name. */
  lemma ReadyIsNotWritten(k: Kernel, e: Event, w: nat, root: nat)
    requires Inv(k) && IsRootOf(k, w, root) && k.tasks[w].state == Ready && !(e.CopyToTask? && e.task == w)
    ensures !MayWrite(k, e, root)
  {
    hide Inv;
    ReadyIsNotCurrent(k, w);
    forall i: nat | IsRootOf(k, i, root) ensures i == w {
      OneTaskPerRoot(k, i, w, root);
    }
  }

  lemma ReadyMemoryStep(k: Kernel, e: Event, k': Kernel, w: nat, root: nat)
    requires Inv(k) && Next(k, e, k') && IsRootOf(k, w, root) && k.tasks[w].state == Ready
    requires !(e.CopyToTask? && e.task == w)
    ensures root in k.spaces && root in k'.spaces && k'.spaces[root] == k.spaces[root] && IsRootOf(k', w, root)
  {
    hide Inv, Next, MayWrite, Leaves, FdsStep, HeapStep, ChildrenAfter;
    var pid := k.tasks[w].pid.value;
    RootInSpaces(k, pid);
    ReadyIsNotWritten(k, e, w, root);
    StepSpaces(k, e, k', root);
    TasksMove(k, e, k');
    StepProcs(k, e, k');
    ReadyKeepsProcess(k, e, k', w);
  }

  /** A task that can run has its process in the table after the step, too. */
  lemma ReadyKeepsProcess(k: Kernel, e: Event, k': Kernel, w: nat)
    requires Inv(k) && Next(k, e, k') && w < |k.tasks| && k.tasks[w].state == Ready && k.tasks[w].pid.Some?
    ensures w < |k'.tasks| && k'.tasks[w].pid == k.tasks[w].pid && k.tasks[w].pid.value in k'.procs
  {
    hide FamilyOk, OrphansAlive, WaitsOk, FilesOk, SpacesOk, HeapsOk, CurrentOk, Next;
    TasksMove(k, e, k');
    assert Inv(k') by { NextKeepsInv(k, e, k'); }
  }

  /** The status a woken parent was given is still in its memory when it runs, together
      with everything else that was there. */
  lemma {:induction false} AnswerSurvives(ks: seq<Kernel>, es: seq<Event>, a: nat, b: nat, w: nat, root: nat)
    requires FromBoot(ks, es) && a <= b < |ks| && IsRootOf(ks[a], w, root) && root in ks[a].spaces
    requires forall i | a <= i < b :: w < |ks[i].tasks| && ks[i].tasks[w].state == Ready
    requires forall i | a <= i < b :: !(es[i].CopyToTask? && es[i].task == w)
    ensures IsRootOf(ks[b], w, root) && root in ks[b].spaces && ks[b].spaces[root] == ks[a].spaces[root]
    decreases b - a
  {
    hide Inv, Next, IsRootOf;
    if a < b {
      AnswerSurvives(ks, es, a, b - 1, w, root);
      RunStep(ks, es, b - 1);
      ReadyMemoryStep(ks[b - 1], es[b - 1], ks[b], w, root);
    }
  }

  lemma TaskHasProcess(k: Kernel, w: nat)
    requires Inv(k) && w < |k.tasks| && !k.tasks[w].Terminal() && k.tasks[w].pid.Some?
    ensures k.tasks[w].pid.value in k.procs
  {
    hide FamilyOk, OrphansAlive, WaitsOk, FilesOk, SpacesOk, HeapsOk, CurrentOk;
  }

  /** A woken task runs in the address space it blocked in. */
  lemma WokenKeepsRoot(k: Kernel, e: Event, k': Kernel, w: nat, root: nat)
    requires Inv(k) && Next(k, e, k') && IsRootOf(k, w, root)
    requires k.tasks[w].state.Blocked? && EndedPid(k, e) == Some(k.tasks[w].state.child)
    ensures IsRootOf(k', w, root)
  {
    hide Inv, Next, Leaves, FdsStep, HeapStep, ChildrenAfter;
    TasksMove(k, e, k');
    StepProcs(k, e, k');
    NextKeepsInv(k, e, k');
    assert TaskStep(k.tasks[w], k'.tasks[w], EndedPid(k, e));
    TaskHasProcess(k', w);
  }

  /** What a parent makes of the eight status bytes: how its child ended, and with what
      code. */
  predicate TellsEnd(bytes: seq<byte>, e: Event)
    requires |bytes| == STATUS_SIZE
  {
    match e
    case Exit(code) => Decode(bytes[..4]) == 0 && Decode(bytes[4..]) == code % U32
    case UserFault(_) => Decode(bytes[..4]) == 1 && Decode(bytes[4..]) == 0
    case _ => false
  }

  lemma StatusTellsEnd(e: Event)
    requires e.Exit? || e.UserFault?
    ensures TellsEnd(StatusBytes(EndStatus(e)), e)
  {
    hide StatusBytes, Decode, ToI32;
    StatusReadBack(if e.Exit? then e.code else 0);
  }

  /** From blocking to reading, over any run: when a task that blocked in waitpid runs
      again, it has the child's pid as its result, and the eight bytes it reads where it
      asked for the status say how that child ended and with what code. */
  lemma AnswerIsRead(ks: seq<Kernel>, es: seq<Event>, a: nat, c: nat, d: nat, w: nat)
    requires FromBoot(ks, es) && a <= c < d < |ks| && w < |ks[a].tasks| && ks[a].tasks[w].state.Blocked?
    requires EndedPid(ks[c], es[c]) == Some(ks[a].tasks[w].state.child)
    requires forall i | a <= i < c :: EndedPid(ks[i], es[i]) != Some(ks[a].tasks[w].state.child)
    requires forall i | c < i < d :: w < |ks[i].tasks| && ks[i].tasks[w].state == Ready
    requires forall i | c < i < d :: !(es[i].CopyToTask? && es[i].task == w)
    requires ks[a].tasks[w].state.statusPtr.Some?
    ensures w < |ks[d].tasks| && CanRun(ks[d].tasks[w]) && ks[d].tasks[w].rax == ks[a].tasks[w].state.child
    ensures ks[d].tasks[w].pid.Some?
    ensures
      var (bytes, error) := CopyIn(SpaceOf(ks[d], ks[d].tasks[w].pid.value), ks[a].tasks[w].state.statusPtr.value, STATUS_SIZE);
      error.None? && |bytes| == STATUS_SIZE && TellsEnd(bytes, es[c])
  {
    hide Inv, Next, CopyIn, TellsEnd, StatusBytes, SameShape, KeepsReadOnly, FromBoot;
    BootIsRun(ks, es);
    WaitIsAnswered(ks, es, a, c, d, w);
    BlockedUntilChildEnds(ks, es, a, c, w);
    RunStep(ks, es, c);
    var root := ks[c].procs[ks[c].tasks[w].pid.value].root;
    WokenKeepsRoot(ks[c], es[c], ks[c + 1], w, root);
    AnswerSurvives(ks, es, c + 1, d, w, root);
    StatusTellsEnd(es[c]);
  }

  /** The same for a waitpid that finds the child already ended: the bytes it stores tell
      of the very step in which that child ended. */
  lemma PollIsRead(ks: seq<Kernel>, es: seq<Event>, c: nat) returns (a: nat)
    requires FromBoot(ks, es) && c < |es| && es[c].Wait? && es[c].statusAddress != 0 && Reported(ks[c], es[c]).Some?
    ensures a < c && EndedPid(ks[a], es[a]) == Some(es[c].child)
    ensures ks[c].current.Some? && ks[c].current.value < |ks[c + 1].tasks|
    ensures ks[c + 1].tasks[ks[c].current.value].rax == es[c].child
    ensures CurrentPid(ks[c]).Some? && CurrentPid(ks[c]).value in ks[c].procs
    ensures
      var root := ks[c].procs[CurrentPid(ks[c]).value].root;
      && root in ks[c + 1].spaces
      && var (bytes, error) := CopyIn(ks[c + 1].spaces[root], es[c].statusAddress, STATUS_SIZE);
         error.None? && |bytes| == STATUS_SIZE && TellsEnd(bytes, es[a])
  {
    hide Inv, Next, CopyIn, TellsEnd, StatusBytes, SameShape, KeepsReadOnly, FromBoot;
    BootIsRun(ks, es);
    RunStep(ks, es, c);
    PollReports(ks[c], es[c], ks[c + 1]);
    a := ZombieEnded(ks, es, c, es[c].child);
    StatusTellsEnd(es[a]);
  }
}

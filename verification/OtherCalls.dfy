/** What the remaining events do: spawning, brk, getpid, unknown calls, stores and what
    the rest of the kernel asks for. */
module OtherCalls {
  import opened Base
  import opened UserSpaces
  import opened UserLayout
  import opened Files
  import opened Processes
  import opened Kernel
  import opened Invariants
  import opened Preservation
  import opened HeapSteps
  import opened Runs
  import opened Layouts
  import opened CallResults
  import SpawnSteps

  // ----- spawning -----

  /** Nothing but the number of free files stands in the way of a new process. */
  predicate RoomFor(k: Kernel, parent: Option<nat>) {
    && |k.tasks| < k.lim.tasks && |k.procs| < k.lim.processes && k.nextPid <= k.lim.processes
    && (parent.Some? ==> parent.value in k.procs)
  }

  /** The process table with a new process under the next pid, last in its parent's list. */
  function Born(k: Kernel, parent: Option<nat>, init: UserInit, fds: FdTable): Procs
    requires parent.Some? ==> parent.value in k.procs
  {
    var procs := if parent.Some?
                 then k.procs[parent.value := k.procs[parent.value].(children := k.procs[parent.value].children + [k.nextPid])]
                 else k.procs;
    procs[k.nextPid := Process(k.nextPid, parent, [], Alive, init.root, init.heap, fds, |k.tasks|, false)]
  }

  /** A spawn succeeds exactly when there is room in the task and process tables, the
      parent named is in the table and three files are free. The new process then has the
      next pid, the three standard descriptors and a ready task with its argument. A spawn
      that fails leaves tasks and processes alone. Either way the address space is no
      longer up for spawning. */
  lemma SpawnResult(k: Kernel, e: Event, k': Kernel)
    requires Inv(k) && Next(k, e, k') && e.Spawn?
    ensures !RoomFor(k, e.parent) ==> k' == k.(unclaimed := k.unclaimed - {e.init.root})
    ensures RoomFor(k, e.parent) ==>
              var slots := Slots(k.files, k.lim.files);
              && ((forall a: nat, b: nat, c: nat :: !FirstThree(slots, a, b, c)) ==>
                    k' == k.(unclaimed := k.unclaimed - {e.init.root}, files := slots))
              && (forall a: nat, b: nat, c: nat | FirstThree(slots, a, b, c) ::
                    k' == k.(unclaimed := k.unclaimed - {e.init.root},
                             files := WithStdio(slots, a, b, c),
                             procs := Born(k, e.parent, e.init, [Some(a), Some(b), Some(c)] + EmptyFds(k.lim.fds - 3)),
                             nextPid := k.nextPid + 1,
                             tasks := k.tasks + [Task(Some(k.nextPid), Ready, 0, e.init.arg0, None, None)]))
  {
    hide Inv, NewWithStdio, FirstThree, WithStdio, FreshLayout, Create;
    StdioExact(k.files, k.lim.files, k.lim.fds);
    SpawnSteps.PidsBelow(k);
    if RoomFor(k, e.parent) {
      forall fds: FdTable
        ensures Create(k.procs, k.nextPid, e.parent, e.init.root, e.init.heap, fds, |k.tasks|) == Born(k, e.parent, e.init, fds)
      {
        CreateIsBorn(k, e.parent, e.init, fds);
      }
    }
  }

  lemma CreateIsBorn(k: Kernel, parent: Option<nat>, init: UserInit, fds: FdTable)
    requires k.nextPid !in k.procs && (parent.Some? ==> parent.value in k.procs)
    ensures Create(k.procs, k.nextPid, parent, init.root, init.heap, fds, |k.tasks|) == Born(k, parent, init, fds)
  {
  }

  // ----- brk -----

  /** brk of a user task: 0 asks for the break; below the heap it is EINVAL, above its
      limit ENOMEM, and ENOMEM too when pages are needed and frames are out; none of these
      changes anything. Otherwise the new break is returned and recorded, and the heap has
      exactly the pages up to it, old bytes kept and new ones zero. */
  lemma BrkResult(k: Kernel, e: Event, k': Kernel)
    requires Inv(k) && Next(k, e, k') && e.Brk?
    ensures HasCurrent(k)
    ensures CurrentPid(k).None? ==> k' == Resumed(k, EINVAL)
    ensures CurrentPid(k).Some? ==> CurrentPid(k).value in k.procs && BreakMoves(k, e, k', CurrentPid(k).value)
  {
    hide Inv, SysBrk, BreakMoves;
    if CurrentPid(k).None? {
      KernelBrk(k, e);
    } else {
      LiveProcess(k);
      UserBrk(k, e, k');
    }
  }

  ghost predicate BreakMoves(k: Kernel, e: Event, k': Kernel, p: nat)
    requires e.Brk? && HasCurrent(k) && p in k.procs
  {
    var h, root := k.procs[p].heap, k.procs[p].root;
    if e.requested == 0 || e.requested == h.brk then k' == Resumed(k, h.brk)
    else if e.requested < h.start then k' == Resumed(k, EINVAL)
    else if e.requested > h.limit then k' == Resumed(k, ENOMEM)
    else
      && root in k.spaces && root in k'.spaces
      && exists end: nat :: IsRoundedUp(end, e.requested)
           && if end > h.mappedEnd && !e.granted then k' == Resumed(k, ENOMEM)
              else
                && k' == Resumed(k, e.requested).(
                     procs := k.procs[p := k.procs[p].(heap := h.(brk := e.requested, mappedEnd := end))],
                     spaces := k.spaces[root := k'.spaces[root]])
                && HeapPages(k.spaces[root], k'.spaces[root], h, end)
  }

  predicate IsRoundedUp(end: nat, requested: nat) {
    end % 4096 == 0 && requested <= end < requested + 4096
  }

  /** The heap window of `t` holds exactly the pages up to `end`; whatever was in `s` and
      still is in `t` is unchanged, the rest is zero and writable. */
  ghost predicate HeapPages(s: UserSpace, t: UserSpace, h: UserHeap, end: nat) {
    && (forall p: nat :: p in t <==>
          if h.start / PAGE_SIZE <= p < h.limit / PAGE_SIZE then p < end / PAGE_SIZE else p in s)
    && (forall p | p in t :: t[p] == if p in s then s[p] else ZeroPage(true))
  }

  lemma KernelBrk(k: Kernel, e: Event)
    requires HasCurrent(k) && e.Brk? && CurrentPid(k).None?
    ensures SysBrk(k, e.requested, e.granted) == (k, Err(Invalid))
  {
  }

  lemma UserBrk(k: Kernel, e: Event, k': Kernel)
    requires Inv(k) && Next(k, e, k') && e.Brk? && CurrentPid(k).Some? && CurrentPid(k).value in k.procs
    ensures BreakMoves(k, e, k', CurrentPid(k).value)
  {
    hide Inv, SysBrk, HeapOk, HeapMapped, AlignUp, Moved, HeapPages, IsRoundedUp;
    var p := CurrentPid(k).value;
    var (k1, r) := SysBrk(k, e.requested, e.granted);
    assert k' == Return(k1, r);
    hide Step, Enabled;
    BrkExact(k, e.requested, e.granted);
    var h := k.procs[p].heap;
    HeapBounds(h);
    if h.start <= e.requested <= h.limit {
      RoundsUp(e.requested);
      PagesMoved(k.spaces[k.procs[p].root], h, e.requested);
    }
  }

  lemma RoundsUp(requested: nat)
    requires AlignUp(requested).Some?
    ensures IsRoundedUp(AlignUp(requested).value, requested)
  {
  }

  lemma PagesMoved(s: UserSpace, h: UserHeap, requested: nat)
    requires HeapOk(h) && HeapMapped(s, h) && h.start <= requested <= h.limit && AlignUp(requested).Some?
    ensures HeapPages(s, Moved(s, h, requested, AlignUp(requested).value), h, AlignUp(requested).value)
  {
    hide HeapOk, HeapMapped, AlignUp, Moved;
    MovedBytes(s, h, requested);
  }

  // ----- getpid and unknown calls -----

  /** getpid returns the pid of the running process, and ECHILD to a kernel task; a call
      number that does not exist returns ENOSYS. Nothing else changes. */
  lemma PlainResult(k: Kernel, e: Event, k': Kernel)
    requires Inv(k) && Next(k, e, k') && (e.GetPid? || e.UnknownSyscall?)
    ensures HasCurrent(k)
    ensures k' == Resumed(k, if e.UnknownSyscall? then ENOSYS
                             else if k.tasks[k.current.value].pid.Some? then k.tasks[k.current.value].pid.value else ECHILD)
  {
    hide Inv;
  }

  // ----- memory -----

  /** A store by the running program changes that one byte and nothing else. */
  lemma StoreResult(k: Kernel, e: Event, k': Kernel)
    requires Inv(k) && Next(k, e, k') && e.UserStore?
    ensures CurrentPid(k).Some? && CurrentPid(k).value in k.procs
    ensures
      var root := k.procs[CurrentPid(k).value].root;
      && root in k.spaces && root in k'.spaces && k' == k.(spaces := k.spaces[root := k'.spaces[root]])
      && StoredAt(k.spaces[root], k'.spaces[root], e.address, [e.value])
  {
    hide Inv, Poke, Peek, StoredAt;
    CallerSpace(k);
    PokeStores(SpaceOf(k, CurrentPid(k).value), e.address, e.value);
  }

  lemma PokeStores(s: UserSpace, a: nat, v: byte)
    requires IsMapped(s, a)
    ensures StoredAt(s, Poke(s, a, v), a, [v])
  {
    PokeFrame(s, a, v);
    var t := Poke(s, a, v);
    hide Poke;
    forall x: nat | x / PAGE_SIZE in s ensures ByteAt(t, x) == if a <= x < a + 1 then v else ByteAt(s, x) {
      assert IsMapped(s, x) && Peek(t, x) == ByteAt(t, x) && Peek(s, x) == ByteAt(s, x);
    }
  }

  /** A copy by the kernel into a task's memory stores the bytes, up to the first that may
      not be written, and changes nothing else; a task without a process is left alone. */
  lemma CopyResult(k: Kernel, e: Event, k': Kernel)
    requires Inv(k) && Next(k, e, k') && e.CopyToTask?
    ensures
      if e.task < |k.tasks| && k.tasks[e.task].pid.Some? && k.tasks[e.task].pid.value in k.procs then
        var root := k.procs[k.tasks[e.task].pid.value].root;
        && root in k.spaces && root in k'.spaces && k' == k.(spaces := k.spaces[root := k'.spaces[root]])
        && StoredUpTo(k.spaces[root], k'.spaces[root], e.address, e.bytes)
        && (Writable(k.spaces[root], e.address, |e.bytes|) ==>
              StoredAt(k.spaces[root], k'.spaces[root], e.address, e.bytes))
      else k' == k
  {
    hide Inv, CopyOut, StoredAt, StoredUpTo, Writable;
    if e.task < |k.tasks| && k.tasks[e.task].pid.Some? && k.tasks[e.task].pid.value in k.procs {
      RootInSpaces(k, k.tasks[e.task].pid.value);
      CopyOutStores(SpaceOf(k, k.tasks[e.task].pid.value), e.address, e.bytes);
    }
  }

  // ----- the rest of the kernel -----

  /** Kernel tasks, address spaces, arguments and the preemption flag. */
  lemma KernelResult(k: Kernel, e: Event, k': Kernel)
    requires Inv(k) && Next(k, e, k')
    ensures e.SpawnTask? ==>
              k' == if |k.tasks| < k.lim.tasks then k.(tasks := k.tasks + [Task(None, Ready, 0, 0, None, None)]) else k
    ensures e.MakeSpace? ==>
              e.newRoot !in k.spaces
              && k' == k.(spaces := k.spaces[e.newRoot := e.view], unclaimed := k.unclaimed + {e.newRoot})
    ensures e.SetArgument? && e.task < |k.tasks| && k.tasks[e.task].state == Ready ==>
              k' == k.(tasks := k.tasks[e.task := k.tasks[e.task].(rdi := e.arg)])
    ensures e.SetArgument? && !(e.task < |k.tasks| && k.tasks[e.task].state == Ready) ==> k' == k
    ensures e.SetPreemption? ==> k' == k.(preemption := e.on)
  {
    hide Inv, SysOpen, SysRead, SysWrite, SysClose, SysBrk, CopyOut, SpaceOf, NewWithStdio, Create, Switch, StartRunning;
  }

  lemma CallsKeepPreemption(k: Kernel, e: Event)
    requires Enabled(k, e) && LimitsOk(k.lim)
    requires e.Open? || e.ReadFd? || e.WriteFd? || e.Close? || e.Brk?
    ensures Step(k, e).preemption == k.preemption
  {
    hide AllocFile, AllocateLowest, DecRef, FindEmbedded, CopyIn, CopyOut, SpaceOf, FileOf, ReadChunk, RangeOk, AlignUp,
         ZeroPages, WithoutPages;
  }

  lemma EndKeepsPreemption(k: Kernel, exitCode: Option<nat>, fault: Option<UserFaultInfo>)
    requires HasCurrent(k)
    ensures Finish(k, exitCode, fault).preemption == k.preemption
  {
    hide MarkExited, CloseAllFiles, ReapOrphan, ReapChild, CopyOut, SpaceOf, StatusBytes, NextReady;
  }

  lemma WaitKeepsPreemption(k: Kernel, child: nat, statusPtr: Option<nat>, options: nat)
    ensures WaitPid(k, child, statusPtr, options).preemption == k.preemption
  {
    hide ReapChild, CopyOut, SpaceOf, StatusBytes, PickNext, RangeOk;
  }

  /** Nothing else touches the flag. */
  lemma PreemptionKept(k: Kernel, e: Event, k': Kernel)
    requires Inv(k) && Next(k, e, k') && !e.SetPreemption?
    ensures k'.preemption == k.preemption
  {
    hide Inv, SysOpen, SysRead, SysWrite, SysClose, SysBrk, CopyOut, SpaceOf, NewWithStdio, Create, Switch, StartRunning,
         Finish, WaitPid, PickNext;
    match e
    case Open(_, _, _) | ReadFd(_, _, _) | WriteFd(_, _, _) | Close(_) | Brk(_, _) => CallsKeepPreemption(k, e);
    case Exit(code) => EndKeepsPreemption(k, Some(code), None);
    case UserFault(info) => EndKeepsPreemption(k, None, Some(info));
    case Wait(child, address, options) => WaitKeepsPreemption(k, child, StatusAddress(address), options);
    case _ =>
  }
}

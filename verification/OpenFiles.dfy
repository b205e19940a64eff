/** Open files over whole runs: every slot has exactly one holder, and reads deliver
    a file from its start, in order, with nothing missing. */
module OpenFiles {
  import opened Base
  import opened UserSpaces
  import opened Files
  import opened Processes
  import opened Kernel
  import opened Invariants
  import opened Preservation
  import opened WaitSteps
  import opened ExitSteps
  import opened Runs
  import opened Transitions
  import SpawnSteps
  import UserLayout

  // ----- conservation -----

  /** Descriptor `fd` of process `p` refers to slot `s`. */
  predicate Holds(k: Kernel, p: nat, fd: nat, s: nat) {
    p in k.procs && fd < |k.procs[p].fds| && k.procs[p].fds[fd] == Some(s)
  }

  predicate Occupied(k: Kernel, s: nat) {
    s < |k.files| && k.files[s].Some?
  }

  lemma {:induction false} TwoDescriptors(fds: FdTable, i: nat, j: nat, s: nat)
    requires i < j < |fds| && fds[i] == Some(s) && fds[j] == Some(s)
    ensures CountFds(fds, s) >= 2
  {
    var init := fds[..|fds| - 1];
    if j == |fds| - 1 {
      assert init[i] == Some(s);
      CountPositive(init, s);
    } else {
      TwoDescriptors(init, i, j, s);
    }
  }

  lemma {:induction false} TwoHolders(procs: Procs, n: nat, p: nat, q: nat, s: nat)
    requires p < q < n
    ensures HeldBy(procs, p, s) + HeldBy(procs, q, s) <= Refs(procs, n, s)
  {
    if q == n - 1 {
      HeldAtMost(procs, n - 1, p, s);
    } else {
      TwoHolders(procs, n - 1, p, q, s);
    }
  }

  lemma {:induction false} SomeHolder(procs: Procs, n: nat, s: nat) returns (p: nat)
    requires Refs(procs, n, s) > 0
    ensures p < n && HeldBy(procs, p, s) > 0
  {
    if HeldBy(procs, n - 1, s) > 0 {
      p := n - 1;
    } else {
      p := SomeHolder(procs, n - 1, s);
    }
  }

  /** What the invariant says of one slot: as many references as descriptors, and
      never more than one. */
  lemma SlotCount(k: Kernel, s: nat)
    requires Inv(k)
    ensures Refs(k.procs, k.nextPid, s) == RefCount(k.files, s) == if Occupied(k, s) then 1 else 0
  {
    FilesPart(k);
    hide Inv, Refs;
    assert Occupied(k, s) ==> FileOk(k.files[s].value, k.lim);
  }

  /** A slot is occupied exactly when some descriptor of some process refers to it;
      that process is not a zombie. */
  lemma SlotHasHolder(k: Kernel, s: nat)
    requires Inv(k)
    ensures Occupied(k, s) <==> exists p: nat, fd: nat :: Holds(k, p, fd, s)
    ensures forall p: nat, fd: nat | Holds(k, p, fd, s) :: k.procs[p].state.Alive?
  {
    hide Inv, Refs, RefCount;
    SlotCount(k, s);
    SpawnSteps.PidsBelow(k);
    FilesPart(k);
    if Occupied(k, s) {
      var p := SomeHolder(k.procs, k.nextPid, s);
      CountPositive(k.procs[p].fds, s);
      var fd :| 0 <= fd < |k.procs[p].fds| && k.procs[p].fds[fd] == Some(s);
      assert Holds(k, p, fd, s);
    }
    forall p: nat, fd: nat | Holds(k, p, fd, s) ensures Occupied(k, s) && k.procs[p].state.Alive? {
      CountPositive(k.procs[p].fds, s);
      assert k.procs[p].fds[fd] == Some(s);
      HeldAtMost(k.procs, k.nextPid, p, s);
    }
  }

  /** No slot is shared: a descriptor is the only one that refers to its file. */
  lemma HolderIsUnique(k: Kernel, s: nat, p: nat, fd: nat, q: nat, fd': nat)
    requires Inv(k) && Holds(k, p, fd, s) && Holds(k, q, fd', s)
    ensures p == q && fd == fd'
  {
    hide Inv, Refs, RefCount;
    SlotCount(k, s);
    SpawnSteps.PidsBelow(k);
    CountPositive(k.procs[p].fds, s);
    CountPositive(k.procs[q].fds, s);
    assert k.procs[p].fds[fd] == Some(s) && k.procs[q].fds[fd'] == Some(s);
    if p != q {
      TwoHolders(k.procs, k.nextPid, if p < q then p else q, if p < q then q else p, s);
    } else {
      HeldAtMost(k.procs, k.nextPid, p, s);
      if fd != fd' {
        TwoDescriptors(k.procs[p].fds, if fd < fd' then fd else fd', if fd < fd' then fd' else fd, s);
      }
    }
  }

  // ----- what a step does to one open file -----

  /** A slot in use keeps its file as it is, unless it is released. */
  ghost predicate KeptOrGone(files: FileSlots, files': FileSlots, s: nat)
    requires s < |files|
  {
    s < |files'| && files'[s].Some? ==> files'[s] == files[s]
  }

  lemma AllocKeepsSlot(files: FileSlots, max: nat, kind: OpenFileKind, access: AccessMode, s: nat)
    requires s < |files| && files[s].Some?
    ensures var (files', _) := AllocFile(files, max, kind, access); s < |files'| && files'[s] == files[s]
  {
  }

  lemma StdioKeepsSlot(files: FileSlots, maxFiles: nat, maxFds: nat, s: nat)
    requires maxFds >= 3 && maxFiles > 0 && s < |files| && files[s].Some?
    ensures var (files', _) := NewWithStdio(files, maxFiles, maxFds); s < |files'| && files'[s] == files[s]
  {
    hide AllocFile, CloseAllFiles;
    StdioRollsBack(files, maxFiles, maxFds);
    var (files1, stdin) := AllocFile(files, maxFiles, NullInput, ReadOnly);
    AllocKeepsSlot(files, maxFiles, NullInput, ReadOnly, s);
    var (files2, stdout) := AllocFile(files1, maxFiles, ConsoleStdout, WriteOnly);
    AllocKeepsSlot(files1, maxFiles, ConsoleStdout, WriteOnly, s);
    AllocKeepsSlot(files2, maxFiles, ConsoleStderr, WriteOnly, s);
  }

  lemma ReleaseKeepsOrFrees(files: FileSlots, id: nat, s: nat)
    requires s < |files| && files[s].Some? && files[s].value.refCount == 1
    ensures |DecRef(files, id)| == |files|
    ensures DecRef(files, id)[s] == if id == s then None else files[s]
  {
  }

  lemma {:induction false} CloseAllKeepsOrFrees(fds: FdTable, files: FileSlots, s: nat)
    requires s < |files| && files[s].Some? && files[s].value.refCount == 1
    ensures |CloseAllFiles(fds, files)| == |files|
    ensures CloseAllFiles(fds, files)[s].None? || CloseAllFiles(fds, files)[s] == files[s]
  {
    if fds != [] {
      CloseAllKeepsOrFrees(fds[..|fds| - 1], files, s);
    }
  }

  lemma OpenSlots(k: Kernel, path: nat, len: nat, flags: nat, s: nat)
    requires HasCurrent(k) && Occupied(k, s) && k.files[s].value.refCount == 1
    ensures KeptOrGone(k.files, SysOpen(k, path, len, flags).0.files, s)
  {
    hide SpaceOf, CopyIn, FindEmbedded, AllocFile, AllocateLowest, DecRef;
    if CurrentPid(k).Some? {
      var found := FindEmbedded(k.lim.embedded, CopyIn(SpaceOf(k, CurrentPid(k).value), path, len).0);
      if found.Some? {
        var (files, slot) := AllocFile(k.files, k.lim.files, EmbeddedFile(found.value), ReadOnly);
        AllocKeepsSlot(k.files, k.lim.files, EmbeddedFile(found.value), ReadOnly, s);
        if slot.Ok? {
          ReleaseKeepsOrFrees(files, slot.value, s);
        }
      }
    }
  }

  lemma CloseSlots(k: Kernel, fd: nat, s: nat)
    requires HasCurrent(k) && Occupied(k, s) && k.files[s].value.refCount == 1
    ensures KeptOrGone(k.files, SysClose(k, fd).0.files, s)
  {
    hide DecRef;
    if CurrentPid(k).Some? && CurrentPid(k).value in k.procs {
      var fds := k.procs[CurrentPid(k).value].fds;
      if fd < |fds| && fds[fd].Some? {
        ReleaseKeepsOrFrees(k.files, fds[fd].value, s);
      }
    }
  }

  lemma SpawnSlots(k: Kernel, parent: Option<nat>, init: UserLayout.UserInit, s: nat)
    requires LimitsOk(k.lim) && Occupied(k, s)
    ensures KeptOrGone(k.files, SpawnProcess(k, parent, init).files, s)
  {
    hide NewWithStdio, Create;
    StdioKeepsSlot(k.files, k.lim.files, k.lim.fds, s);
  }

  lemma EndSlots(k: Kernel, e: Event, s: nat)
    requires Inv(k) && LimitsOk(k.lim) && Enabled(k, e) && (e.Exit? || e.UserFault?)
    requires Occupied(k, s) && k.files[s].value.refCount == 1
    ensures KeptOrGone(k.files, Step(k, e).files, s)
  {
    hide Core, CurrentOk, FindWaiter, MarkExited, CloseAllFiles, ReapOrphan, ReapChild, StatusWritten, WaiterOk,
         NoneRunning, PickNext, ExitProcess;
    var i := k.current.value;
    var exitCode: Option<nat> := if e.Exit? then Some(e.code) else None;
    var fault: Option<UserFaultInfo> := if e.UserFault? then Some(e.info) else None;
    var t := Ended(k.tasks[i], exitCode, fault);
    OnlyCurrentEnds(k, t);
    if t.pid.Some? {
      ExitExact(k, i, t, EndStatus(e));
      CloseAllKeepsOrFrees(k.procs[t.pid.value].fds, k.files, s);
    }
  }

  lemma BreakFiles(k: Kernel, requested: nat, granted: bool)
    requires HasCurrent(k)
    ensures SysBrk(k, requested, granted).0.files == k.files
  {
    hide SpaceOf, AlignUp, ZeroPages, WithoutPages, SetSpace;
  }

  lemma WaitFiles(k: Kernel, child: nat, statusPtr: Option<nat>, options: nat)
    requires HasCurrent(k)
    ensures WaitPid(k, child, statusPtr, options).files == k.files
  {
    hide SpaceOf, CopyOut, StatusBytes, ReapChild, PickNext, SetSpace, RangeOk;
  }

  /** Steps other than a read leave an open file as it is or release it. */
  lemma StepSlots(k: Kernel, e: Event, k': Kernel, s: nat)
    requires Inv(k) && Next(k, e, k') && Occupied(k, s) && !e.ReadFd?
    ensures KeptOrGone(k.files, k'.files, s)
  {
    hide Inv, SysOpen, SysRead, SysClose, SysBrk, SpawnProcess, Finish, WaitPid, PickNext, Switch, StartRunning,
         SetSpace, SpaceOf, CopyOut, RangeOk, KeptOrGone;
    SlotCount(k, s);
    KeptTrivially(k.files, s);
    match e
    case Open(path, len, flags) => OpenSlots(k, path, len, flags, s);
    case Close(fd) => CloseSlots(k, fd, s);
    case Spawn(parent, init) => SpawnSlots(k, parent, init, s);
    case Exit(_) | UserFault(_) => EndSlots(k, e, s);
    case Brk(requested, granted) => BreakFiles(k, requested, granted);
    case Wait(child, address, options) => WaitFiles(k, child, StatusAddress(address), options);
    case _ =>
  }

  lemma KeptTrivially(files: FileSlots, s: nat)
    requires s < |files|
    ensures KeptOrGone(files, files, s)
  {
  }

  // ----- reads -----

  /** The call of this step reads from slot `s`. */
  predicate ReadsFrom(k: Kernel, e: Event, s: nat) {
    e.ReadFd? && HasCurrent(k) && CurrentPid(k).Some? && FileOf(k, CurrentPid(k).value, e.fd) == Some(s)
  }

  /** What the caller finds in its buffer after a successful read from slot `s`: as many
      bytes as the call returned. */
  function Received(k: Kernel, e: Event, k': Kernel, s: nat): seq<byte> {
    if ReadsFrom(k, e, s) && SysRead(k, e.fd, e.buf, e.len).1.Ok?
    then CopyIn(SpaceOf(k', CurrentPid(k).value), e.buf, SysRead(k, e.fd, e.buf, e.len).1.value).0
    else []
  }

  /** File `f'` is file `f` with `got` read from it. */
  ghost predicate Advanced(f: OpenFile, f': OpenFile, got: seq<byte>, lim: Limits) {
    && f'.kind == f.kind && f'.access == f.access
    && (if f.kind.EmbeddedFile? then
          && f.kind.id < |lim.embedded|
          && f.offset <= f'.offset <= |lim.embedded[f.kind.id].bytes|
          && got == lim.embedded[f.kind.id].bytes[f.offset..f'.offset]
        else got == [] && f'.offset == f.offset)
  }

  /** Either nothing is read and the file stays, or the next bytes are in the buffer and
      the offset has moved past them. */
  lemma ReadOutcome(k: Kernel, fd: nat, buf: nat, len: nat)
    requires HasCurrent(k) && CurrentPid(k).Some? && FileOf(k, CurrentPid(k).value, fd).Some?
    ensures
      var pid := CurrentPid(k).value;
      var s := FileOf(k, pid, fd).value;
      var f := k.files[s].value;
      var chunk := ReadChunk(k, f, len);
      var (space, error) := CopyOut(SpaceOf(k, pid), buf, chunk, Write);
      var (k', r) := SysRead(k, fd, buf, len);
      || (k'.files == k.files && (r.Ok? ==> r.value == 0))
      || (f.kind.EmbeddedFile? && error.None? && r == Ok(|chunk|)
          && k' == SetSpace(k, pid, space).(files := k.files[s := Some(f.(offset := f.offset + |chunk|))]))
  {
    hide CopyOut, SpaceOf, SetSpace, ReadChunk;
    var pid := CurrentPid(k).value;
    var f := k.files[FileOf(k, pid, fd).value].value;
    if len > 0 && f.access == ReadOnly && f.kind.EmbeddedFile? && f.kind.id < |k.lim.embedded|
       && f.offset < |k.lim.embedded[f.kind.id].bytes| {
      var chunk := ReadChunk(k, f, len);
      var (space, error) := CopyOut(SpaceOf(k, pid), buf, chunk, Write);
      assert SysRead(k, fd, buf, len) ==
             if error.Some? then (SetSpace(k, pid, space), Err(Fault))
             else (SetSpace(k, pid, space).(files := k.files[FileOf(k, pid, fd).value := Some(f.(offset := f.offset + |chunk|))]), Ok(|chunk|));
    }
  }

  lemma ChunkAdvances(k: Kernel, f: OpenFile, len: nat)
    requires FileOk(f, k.lim) && f.kind.EmbeddedFile?
    ensures Advanced(f, f.(offset := f.offset + |ReadChunk(k, f, len)|), ReadChunk(k, f, len), k.lim)
    ensures Advanced(f, f, [], k.lim)
  {
  }

  /** A read of a regular file: the caller gets the next bytes and the offset moves by
      as many, or nothing happens to the file. */
  lemma ReadExact(k: Kernel, fd: nat, buf: nat, len: nat)
    requires Inv(k) && HasCurrent(k) && CurrentPid(k).Some? && FileOf(k, CurrentPid(k).value, fd).Some?
    ensures
      var pid := CurrentPid(k).value;
      var s := FileOf(k, pid, fd).value;
      var (k', r) := SysRead(k, fd, buf, len);
      && |k'.files| == |k.files| && (forall x | 0 <= x < |k.files| && x != s :: k'.files[x] == k.files[x])
      && k'.files[s].Some?
      && Advanced(k.files[s].value, k'.files[s].value,
                  if r.Ok? then CopyIn(SpaceOf(k', pid), buf, r.value).0 else [], k.lim)
  {
    hide Inv, CopyOut, CopyIn, RangeOk, SysRead, FileOk, ReadChunk, Advanced;
    var pid := CurrentPid(k).value;
    var s := FileOf(k, pid, fd).value;
    var f := k.files[s].value;
    SlotFile(k, s);
    LiveProcess(k);
    ReadOutcome(k, fd, buf, len);
    CopyInNothing(SysRead(k, fd, buf, len).0, pid, buf);
    var chunk := ReadChunk(k, f, len);
    NothingAdvances(f, k.lim);
    if f.kind.EmbeddedFile? {
      ChunkAdvances(k, f, len);
    }
    CopyOutExact(SpaceOf(k, pid), buf, chunk, Write);
    if CopyOut(SpaceOf(k, pid), buf, chunk, Write).1.None? {
      CopyOutThenIn(SpaceOf(k, pid), buf, chunk);
    }
  }

  lemma SlotFile(k: Kernel, s: nat)
    requires Inv(k) && Occupied(k, s)
    ensures FileOk(k.files[s].value, k.lim)
  {
    hide Inv, FileOk;
    FilesPart(k);
  }

  lemma NothingAdvances(f: OpenFile, lim: Limits)
    requires FileOk(f, lim)
    ensures Advanced(f, f, [], lim)
  {
  }

  lemma CopyInNothing(k: Kernel, pid: nat, buf: nat)
    ensures CopyIn(SpaceOf(k, pid), buf, 0).0 == []
  {
  }

  /** One step, seen from one open file that is not released in it: the file moves on by
      exactly what its holder received. */
  lemma StepReceives(k: Kernel, e: Event, k': Kernel, s: nat)
    requires Inv(k) && Next(k, e, k') && Occupied(k, s) && Occupied(k', s)
    ensures Advanced(k.files[s].value, k'.files[s].value, Received(k, e, k', s), k.lim)
  {
    hide Inv, SysRead, Advanced, FileOk, FileOf;
    SlotFile(k, s);
    NothingAdvances(k.files[s].value, k.lim);
    if e.ReadFd? {
      var (k1, r) := SysRead(k, e.fd, e.buf, e.len);
      assert k' == Return(k1, r);
      hide Step, Enabled;
      if CurrentPid(k).Some? && FileOf(k, CurrentPid(k).value, e.fd).Some? {
        ReadExact(k, e.fd, e.buf, e.len);
        assert SpaceOf(k', CurrentPid(k).value) == SpaceOf(k1, CurrentPid(k).value);
      } else {
        ReadNothing(k, e.fd, e.buf, e.len);
      }
    } else {
      StepSlots(k, e, k', s);
    }
  }

  lemma ReadNothing(k: Kernel, fd: nat, buf: nat, len: nat)
    requires HasCurrent(k) && (CurrentPid(k).None? || FileOf(k, CurrentPid(k).value, fd).None?)
    ensures SysRead(k, fd, buf, len).0 == k
  {
    hide CopyOut, FileOf;
  }

  // ----- over runs -----

  /** Everything received from slot `s` between states `a` and `b`. */
  function Delivered(ks: seq<Kernel>, es: seq<Event>, s: nat, a: nat, b: nat): seq<byte>
    requires |ks| == |es| + 1 && a <= b < |ks|
    decreases b - a
  {
    if a == b then [] else Delivered(ks, es, s, a, b - 1) + Received(ks[b - 1], es[b - 1], ks[b], s)
  }

  /** As long as a file stays open, what its holder has received since is the file's
      content from where it was to where it is, whatever else happens meanwhile. */
  lemma {:induction false} ReadsConcatenate(ks: seq<Kernel>, es: seq<Event>, s: nat, a: nat, b: nat)
    requires FromBoot(ks, es) && a <= b < |ks| && Occupied(ks[a], s) && Occupied(ks[b], s)
    requires forall i | a <= i <= b :: Occupied(ks[i], s)
    ensures Advanced(ks[a].files[s].value, ks[b].files[s].value, Delivered(ks, es, s, a, b), ks[a].lim)
    decreases b - a
  {
    hide Inv, Next, FileOk, Received;
    BootRunInv(ks, es, a);
    SlotFile(ks[a], s);
    NothingAdvances(ks[a].files[s].value, ks[a].lim);
    if a < b {
      ReadsConcatenate(ks, es, s, a, b - 1);
      BootRunInv(ks, es, b - 1);
      assert Next(ks[b - 1], es[b - 1], ks[b - 1 + 1]);
      StepReceives(ks[b - 1], es[b - 1], ks[b], s);
      SameLimits(ks, es, a, b - 1);
    }
  }

  lemma {:induction false} SameLimits(ks: seq<Kernel>, es: seq<Event>, a: nat, b: nat)
    requires IsRun(ks, es) && a <= b < |ks|
    ensures ks[b].lim == ks[a].lim
    decreases b - a
  {
    if a < b {
      SameLimits(ks, es, a, b - 1);
      assert Next(ks[b - 1], es[b - 1], ks[b - 1 + 1]);
    }
  }

  /** A successful open starts a new file at offset zero in a slot that was free. */
  lemma OpenStartsAtZero(k: Kernel, path: nat, len: nat, flags: nat)
    requires Inv(k) && HasCurrent(k) && SysOpen(k, path, len, flags).1.Ok?
    ensures
      var (k', r) := SysOpen(k, path, len, flags);
      CurrentPid(k).Some? &&
      var slot := FileOf(k', CurrentPid(k).value, r.value);
      && slot.Some? && !Occupied(k, slot.value)
      && var f := k'.files[slot.value].value;
         && f.offset == 0 && f.access == ReadOnly && f.kind.EmbeddedFile? && f.kind.id < |k.lim.embedded|
         && CopyIn(SpaceOf(k, CurrentPid(k).value), path, len) == (k.lim.embedded[f.kind.id].path, None)
  {
    hide Inv, SpaceOf, CopyIn, FindEmbedded;
    LiveProcess(k);
  }

  /** From a successful open on: what its holder has received is the start of the named
      file, up to the offset. */
  lemma OpenedFileDelivers(ks: seq<Kernel>, es: seq<Event>, a: nat, b: nat, s: nat)
    requires FromBoot(ks, es) && a < b < |ks| && es[a].Open? && HasCurrent(ks[a]) && CurrentPid(ks[a]).Some?
    requires
      var (k', r) := SysOpen(ks[a], es[a].path, es[a].pathLen, es[a].flags);
      r.Ok? && FileOf(k', CurrentPid(ks[a]).value, r.value) == Some(s)
    requires Occupied(ks[a + 1], s) && Occupied(ks[b], s) && forall i | a < i <= b :: Occupied(ks[i], s)
    ensures
      var f := ks[b].files[s].value;
      && f.kind.EmbeddedFile? && f.kind.id < |ks[a].lim.embedded|
      && f.offset <= |ks[a].lim.embedded[f.kind.id].bytes|
      && Delivered(ks, es, s, a + 1, b) == ks[a].lim.embedded[f.kind.id].bytes[..f.offset]
      && CopyIn(SpaceOf(ks[a], CurrentPid(ks[a]).value), es[a].path, es[a].pathLen).0 == ks[a].lim.embedded[f.kind.id].path
  {
    hide Inv, SysOpen, SpaceOf, CopyIn, Delivered;
    BootRunInv(ks, es, a);
    assert Next(ks[a], es[a], ks[a + 1]);
    OpenStartsAtZero(ks[a], es[a].path, es[a].pathLen, es[a].flags);
    ReadsConcatenate(ks, es, s, a + 1, b);
  }

  // ----- writes -----

  lemma WriteOutcome(k: Kernel, fd: nat, buf: nat, len: nat)
    requires HasCurrent(k)
    ensures
      var (k', r) := SysWrite(k, fd, buf, len);
      || (k' == k && (r.Err? || (len == 0 && r == Ok(0))))
      || (CurrentPid(k).Some? && r == Ok(len)
          && k'.out == k.out + CopyIn(SpaceOf(k, CurrentPid(k).value), buf, len).0
          && CopyIn(SpaceOf(k, CurrentPid(k).value), buf, len).1.None?
          && |CopyIn(SpaceOf(k, CurrentPid(k).value), buf, len).0| == len)
  {
    hide CopyIn, ReadRange, RangeOk, SpaceOf;
    if CurrentPid(k).Some? {
      var s := SpaceOf(k, CurrentPid(k).value);
      CopyInExact(s, buf, len);
    }
  }

  /** Steps other than a write and the end of a task, which the lemmas below cover. */
  predicate Quiet(e: Event) {
    !e.WriteFd? && !e.Exit? && !e.UserFault?
  }

  lemma QuietKeepsOutput(k: Kernel, e: Event)
    requires LimitsOk(k.lim) && Enabled(k, e) && Quiet(e)
    ensures Step(k, e).out == k.out
  {
    hide PickNext, Switch, StartRunning, SetSpace, SpaceOf, CopyOut, SysOpen, SysRead, SysClose, SysBrk,
         SpawnProcess, WaitPid;
  }

  lemma EndKeepsOutput(k: Kernel, e: Event)
    requires Inv(k) && LimitsOk(k.lim) && Enabled(k, e) && (e.Exit? || e.UserFault?)
    ensures Step(k, e).out == k.out
  {
    hide Core, CurrentOk, FindWaiter, MarkExited, CloseAllFiles, ReapOrphan, ReapChild, StatusWritten, WaiterOk,
         NoneRunning, PickNext, ExitProcess;
    var i := k.current.value;
    var exitCode: Option<nat> := if e.Exit? then Some(e.code) else None;
    var fault: Option<UserFaultInfo> := if e.UserFault? then Some(e.info) else None;
    var t := Ended(k.tasks[i], exitCode, fault);
    OnlyCurrentEnds(k, t);
    if t.pid.Some? {
      ExitExact(k, i, t, EndStatus(e));
    }
  }

  /** Output is written whole or not at all: a step that adds to it is a write whose
      whole buffer was readable, it adds exactly that buffer, and it returns its length. */
  lemma OutputIsWhole(k: Kernel, e: Event, k': Kernel)
    requires Inv(k) && Next(k, e, k') && k'.out != k.out
    ensures e.WriteFd? && HasCurrent(k) && CurrentPid(k).Some?
    ensures
      var (bytes, error) := CopyIn(SpaceOf(k, CurrentPid(k).value), e.buf, e.len);
      && error.None? && |bytes| == e.len
      && k'.out == k.out + bytes && k'.tasks[k.current.value].rax == e.len
  {
    hide Inv, SysWrite, CopyIn, SpaceOf;
    if e.WriteFd? {
      WriteOutcome(k, e.fd, e.buf, e.len);
    } else if e.Exit? || e.UserFault? {
      EndKeepsOutput(k, e);
    } else {
      QuietKeepsOutput(k, e);
    }
  }
}

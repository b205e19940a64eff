/** What open, read, write and close do and return, for every request. */
module FileCalls {
  import opened Base
  import opened UserSpaces
  import opened Files
  import opened Kernel
  import opened Invariants
  import opened Preservation
  import opened Runs
  import opened Transitions
  import opened OpenFiles
  import opened CallResults

  // ----- the file behind a descriptor -----

  /** Descriptor `fd` of the running process is slot `s`, which holds file `f`. */
  predicate IsOpen(k: Kernel, fd: nat, s: nat, f: OpenFile) {
    CurrentPid(k).Some? && Holds(k, CurrentPid(k).value, fd, s) && s < |k.files| && k.files[s] == Some(f)
  }

  predicate NotOpen(k: Kernel, fd: nat) {
    CurrentPid(k).None? || CurrentPid(k).value !in k.procs
    || fd >= |k.procs[CurrentPid(k).value].fds| || k.procs[CurrentPid(k).value].fds[fd].None?
  }

  /** Either there is no such descriptor or there is a file behind it. */
  lemma OpenOrNot(k: Kernel, fd: nat) returns (s: nat, f: OpenFile)
    requires Inv(k)
    ensures NotOpen(k, fd) || (IsOpen(k, fd, s, f) && f.refCount == 1)
    ensures NotOpen(k, fd) ==> forall s': nat, f': OpenFile :: !IsOpen(k, fd, s', f')
  {
    hide Inv;
    s, f := 0, OpenFile(NullInput, ReadOnly, 0, 1);
    if !NotOpen(k, fd) {
      s := k.procs[CurrentPid(k).value].fds[fd].value;
      assert Holds(k, CurrentPid(k).value, fd, s);
      SlotHasHolder(k, s);
      f := k.files[s].value;
      SlotFile(k, s);
    }
  }

  lemma FileOfIsOpen(k: Kernel, fd: nat, s: nat, f: OpenFile)
    requires IsOpen(k, fd, s, f)
    ensures FileOf(k, CurrentPid(k).value, fd) == Some(s)
  {
  }

  lemma FileOfNotOpen(k: Kernel, fd: nat)
    requires NotOpen(k, fd)
    ensures CurrentPid(k).None? || FileOf(k, CurrentPid(k).value, fd).None?
  {
  }

  // ----- close -----

  /** close of an open descriptor returns 0, empties the descriptor and frees the slot,
      and changes nothing else; of any other it returns EBADF. */
  lemma CloseResult(k: Kernel, e: Event, k': Kernel)
    requires Inv(k) && Next(k, e, k') && e.Close?
    ensures HasCurrent(k)
    ensures NotOpen(k, e.fd) ==> k' == Resumed(k, EBADF)
    ensures forall s: nat, f: OpenFile | IsOpen(k, e.fd, s, f) ::
              var p := CurrentPid(k).value;
              k' == Resumed(k, 0).(files := k.files[s := None],
                                   procs := k.procs[p := k.procs[p].(fds := k.procs[p].fds[e.fd := None])])
  {
    hide Inv;
    forall s: nat, f: OpenFile | IsOpen(k, e.fd, s, f) ensures f.refCount == 1 {
      SlotFile(k, s);
    }
  }

  // ----- write -----

  /** Descriptor `fd` of the running process writes to the console. */
  predicate IsConsole(f: OpenFile) {
    f.access == WriteOnly && (f.kind == ConsoleStdout || f.kind == ConsoleStderr)
  }

  /** `out'` is `out` and then the `n` bytes at `a` of `s`. */
  ghost predicate Printed(out: seq<byte>, out': seq<byte>, s: UserSpace, a: nat, n: nat) {
    |out'| == |out| + n && out'[..|out|] == out && Finds(s, a, out'[|out|..])
  }

  /** write of nothing returns 0. Otherwise it prints the whole buffer and returns its
      length, exactly when the descriptor is open for writing on the console and every
      byte is readable; it returns EFAULT for an unreadable buffer, EBADF for any other
      descriptor, and then prints nothing. */
  lemma WriteResult(k: Kernel, e: Event, k': Kernel)
    requires Inv(k) && Next(k, e, k') && e.WriteFd?
    ensures HasCurrent(k)
    ensures e.len == 0 ==> k' == Resumed(k, 0)
    ensures e.len > 0 && NotOpen(k, e.fd) ==> k' == Resumed(k, EBADF)
    ensures forall s: nat, f: OpenFile | e.len > 0 && IsOpen(k, e.fd, s, f) ::
              && CurrentPid(k).value in k.procs && k.procs[CurrentPid(k).value].root in k.spaces
              && var view := k.spaces[k.procs[CurrentPid(k).value].root];
                 if !IsConsole(f) then k' == Resumed(k, EBADF)
                 else if !Readable(view, e.buf, e.len) then k' == Resumed(k, EFAULT)
                 else k' == Resumed(k, e.len).(out := k'.out) && Printed(k.out, k'.out, view, e.buf, e.len)
  {
    hide Inv, RangeOk, Readable, FileOf, Printed;
    if CurrentPid(k).Some? {
      CallerSpace(k);
      ReadableIsOk(SpaceOf(k, CurrentPid(k).value), e.buf, e.len);
    }
    if NotOpen(k, e.fd) {
      FileOfNotOpen(k, e.fd);
    }
    forall s: nat, f: OpenFile | e.len > 0 && IsOpen(k, e.fd, s, f)
      ensures
        && CurrentPid(k).value in k.procs && k.procs[CurrentPid(k).value].root in k.spaces
        && var view := k.spaces[k.procs[CurrentPid(k).value].root];
           if !IsConsole(f) then k' == Resumed(k, EBADF)
           else if !Readable(view, e.buf, e.len) then k' == Resumed(k, EFAULT)
           else k' == Resumed(k, e.len).(out := k'.out) && Printed(k.out, k'.out, view, e.buf, e.len)
    {
      FileOfIsOpen(k, e.fd, s, f);
      var view := SpaceOf(k, CurrentPid(k).value);
      if IsConsole(f) && Readable(view, e.buf, e.len) {
        PrintsRange(k.out, view, e.buf, e.len);
      }
    }
  }

  lemma PrintsRange(out: seq<byte>, s: UserSpace, a: nat, n: nat)
    requires Readable(s, a, n)
    ensures RangeOk(s, a, n, Read) && Printed(out, out + ReadRange(s, a, n), s, a, n)
  {
    hide Finds;
    ReadRangeFinds(s, a, n);
    assert (out + ReadRange(s, a, n))[|out|..] == ReadRange(s, a, n);
  }

  // ----- read -----

  /** How many bytes of file `f` a read of `len` asks for. */
  function Wanted(k: Kernel, f: OpenFile, len: nat): nat
    requires f.kind.EmbeddedFile? && f.kind.id < |k.lim.embedded|
    requires f.offset <= |k.lim.embedded[f.kind.id].bytes|
  {
    Min(len, |k.lim.embedded[f.kind.id].bytes| - f.offset)
  }

  /** read of nothing returns 0, and so does one from the null input. From a file it
      delivers as many bytes as are asked for and left, from the offset on, moves the
      offset past them and returns their number; so it returns 0 only at the end. If the
      buffer cannot take them it returns EFAULT, with the part before the first bad byte
      stored and the offset where it was. From any other descriptor it returns EBADF. */
  lemma ReadResult(k: Kernel, e: Event, k': Kernel)
    requires Inv(k) && Next(k, e, k') && e.ReadFd?
    ensures HasCurrent(k)
    ensures e.len == 0 ==> k' == Resumed(k, 0)
    ensures e.len > 0 && NotOpen(k, e.fd) ==> k' == Resumed(k, EBADF)
    ensures forall s: nat, f: OpenFile | e.len > 0 && IsOpen(k, e.fd, s, f) :: ReadsFile(k, e, k', s, f)
  {
    hide Inv, ReadsFile, FileOf, CopyOut, SpaceOf, SetSpace, ReadChunk;
    if NotOpen(k, e.fd) {
      FileOfNotOpen(k, e.fd);
    }
    forall s: nat, f: OpenFile | e.len > 0 && IsOpen(k, e.fd, s, f) ensures ReadsFile(k, e, k', s, f) {
      ReadOpenFile(k, e, k', s, f);
    }
  }

  ghost predicate ReadsFile(k: Kernel, e: Event, k': Kernel, s: nat, f: OpenFile)
    requires HasCurrent(k) && e.ReadFd? && IsOpen(k, e.fd, s, f)
  {
    match f.kind
    case NullInput => k' == Resumed(k, if f.access == ReadOnly then 0 else EBADF)
    case ConsoleStdout => k' == Resumed(k, EBADF)
    case ConsoleStderr => k' == Resumed(k, EBADF)
    case EmbeddedFile(id) =>
      && f.access == ReadOnly && id < |k.lim.embedded| && f.offset <= |k.lim.embedded[id].bytes|
      && CurrentPid(k).value in k.procs
      && var root := k.procs[CurrentPid(k).value].root;
         && root in k.spaces && root in k'.spaces
         && var n := Wanted(k, f, e.len);
            var bytes := k.lim.embedded[id].bytes[f.offset..f.offset + n];
            if Writable(k.spaces[root], e.buf, n) then
              && k' == Resumed(k, n).(files := k.files[s := Some(f.(offset := f.offset + n))],
                                      spaces := k.spaces[root := k'.spaces[root]])
              && StoredAt(k.spaces[root], k'.spaces[root], e.buf, bytes)
            else
              && k' == Resumed(k, EFAULT).(spaces := k.spaces[root := k'.spaces[root]])
              && StoredUpTo(k.spaces[root], k'.spaces[root], e.buf, bytes)
  }

  lemma ReadOpenFile(k: Kernel, e: Event, k': Kernel, s: nat, f: OpenFile)
    requires Inv(k) && Next(k, e, k') && e.ReadFd? && e.len > 0 && IsOpen(k, e.fd, s, f)
    ensures ReadsFile(k, e, k', s, f)
  {
    hide Inv, CopyOut, FileOf, StoredAt, StoredUpTo, Writable;
    FileOfIsOpen(k, e.fd, s, f);
    SlotFile(k, s);
    if f.kind.EmbeddedFile? {
      if f.offset < |k.lim.embedded[f.kind.id].bytes| {
        ReadMore(k, e, k', s, f);
      } else {
        CallerSpace(k);
        var root := k.procs[CurrentPid(k).value].root;
        NothingStored(k.spaces[root], e.buf);
        assert Wanted(k, f, e.len) == 0 && k.lim.embedded[f.kind.id].bytes[f.offset..f.offset + 0] == [];
        assert k' == Resumed(k, 0);
        assert k.files[s := Some(f)] == k.files && k.spaces[root := k.spaces[root]] == k.spaces;
      }
    }
  }

  lemma ReadMore(k: Kernel, e: Event, k': Kernel, s: nat, f: OpenFile)
    requires Inv(k) && Next(k, e, k') && e.ReadFd? && e.len > 0 && IsOpen(k, e.fd, s, f) && FileOk(f, k.lim)
    requires f.kind.EmbeddedFile? && f.offset < |k.lim.embedded[f.kind.id].bytes|
    ensures ReadsFile(k, e, k', s, f)
  {
    hide Inv, CopyOut, StoredAt, StoredUpTo, Writable, SysRead;
    var n := Wanted(k, f, e.len);
    var chunk := k.lim.embedded[f.kind.id].bytes[f.offset..f.offset + n];
    assert ReadChunk(k, f, e.len) == chunk;
    ReadSome(k, e, s, f, chunk);
    var root := k.procs[CurrentPid(k).value].root;
    CopyOutStores(k.spaces[root], e.buf, chunk);
    var (k1, r) := SysRead(k, e.fd, e.buf, e.len);
    assert k' == Return(k1, r);
    assert |chunk| == n;
    var (space, error) := CopyOut(k.spaces[root], e.buf, chunk, Write);
    assert error.None? <==> Writable(k.spaces[root], e.buf, n);
  }

  lemma ReadSome(k: Kernel, e: Event, s: nat, f: OpenFile, chunk: seq<byte>)
    requires Inv(k) && e.ReadFd? && e.len > 0 && IsOpen(k, e.fd, s, f) && FileOk(f, k.lim) && f.kind.EmbeddedFile?
    requires f.offset < |k.lim.embedded[f.kind.id].bytes| && chunk == ReadChunk(k, f, e.len)
    ensures CurrentPid(k).value in k.procs && k.procs[CurrentPid(k).value].root in k.spaces
    ensures
      var root := k.procs[CurrentPid(k).value].root;
      var (space, error) := CopyOut(k.spaces[root], e.buf, chunk, Write);
      SysRead(k, e.fd, e.buf, e.len) ==
        if error.Some? then (k.(spaces := k.spaces[root := space]), Err(Fault))
        else (k.(spaces := k.spaces[root := space], files := k.files[s := Some(f.(offset := f.offset + |chunk|))]), Ok(|chunk|))
  {
    hide Inv, CopyOut, FileOf, ReadChunk;
    FileOfIsOpen(k, e.fd, s, f);
    CallerSpace(k);
  }

  lemma NothingStored(s: UserSpace, a: nat)
    ensures Writable(s, a, 0) && StoredAt(s, s, a, [])
  {
  }

  /** So a caller that asks for bytes sees the end of a file exactly at its end. */
  lemma ZeroMeansEnd(k: Kernel, e: Event, k': Kernel, s: nat, f: OpenFile)
    requires Inv(k) && Next(k, e, k') && e.ReadFd? && e.len > 0 && IsOpen(k, e.fd, s, f) && f.kind.EmbeddedFile?
    ensures f.kind.id < |k.lim.embedded| && k.current.value < |k'.tasks|
    ensures k'.tasks[k.current.value].rax == 0 <==> f.offset == |k.lim.embedded[f.kind.id].bytes|
  {
    hide Inv, Next, StoredAt, StoredUpTo;
    ReadOpenFile(k, e, k', s, f);
  }

  // ----- open -----

  /** The path of `n` bytes at `a` names the embedded file `id`, the first of that name. */
  ghost predicate Names(k: Kernel, s: UserSpace, a: nat, n: nat, id: nat) {
    && id < |k.lim.embedded| && IsPath(s, a, n, k.lim.embedded[id].path)
    && forall j | 0 <= j < id :: !IsPath(s, a, n, k.lim.embedded[j].path)
  }

  ghost predicate IsPath(s: UserSpace, a: nat, n: nat, path: seq<byte>) {
    |path| == n && Finds(s, a, path)
  }

  /** `i` is the first free place of a table. */
  predicate FirstFree<T>(table: seq<Option<T>>, i: nat) {
    i < |table| && table[i].None? && forall j | 0 <= j < i :: table[j].Some?
  }

  predicate AllTaken<T>(table: seq<Option<T>>) {
    forall j | 0 <= j < |table| :: table[j].Some?
  }

  /** The open-file table, made at its first use. */
  function Table(k: Kernel): FileSlots {
    if k.files == [] then seq(k.lim.files, _ => None) else k.files
  }

  lemma PathRead(s: UserSpace, a: nat, n: nat, path: seq<byte>)
    requires Readable(s, a, n)
    ensures CopyIn(s, a, n).1.None? && (CopyIn(s, a, n).0 == path <==> IsPath(s, a, n, path))
  {
    hide CopyIn, Finds, Readable;
    ReadRangeFinds(s, a, n);
    if IsPath(s, a, n, path) {
      FindsUnique(s, a, path, ReadRange(s, a, n));
    }
  }

  /** The refusals of open that come before any table is touched, in the order of its
      checks. */
  lemma OpenRefused(k: Kernel, e: Event, k': Kernel)
    requires Inv(k) && Next(k, e, k') && e.Open?
    ensures HasCurrent(k)
    ensures e.flags != 0 ==> k' == Resumed(k, EINVAL)
    ensures e.flags == 0 && e.pathLen == 0 ==> k' == Resumed(k, ENOENT)
    ensures e.flags == 0 && e.pathLen > 128 ==> k' == Resumed(k, ENAMETOOLONG)
    ensures e.flags == 0 && 0 < e.pathLen <= 128 && CurrentPid(k).None? ==> k' == Resumed(k, EBADF)
    ensures e.flags == 0 && 0 < e.pathLen <= 128 && CurrentPid(k).Some? ==>
              && CurrentPid(k).value in k.procs && k.procs[CurrentPid(k).value].root in k.spaces
              && var view := k.spaces[k.procs[CurrentPid(k).value].root];
                 && (!Readable(view, e.path, e.pathLen) ==> k' == Resumed(k, EFAULT))
                 && (Readable(view, e.path, e.pathLen)
                     && (forall id | 0 <= id < |k.lim.embedded| :: !IsPath(view, e.path, e.pathLen, k.lim.embedded[id].path)) ==>
                       k' == Resumed(k, ENOENT))
  {
    hide Inv, CopyIn, RangeOk, Readable, IsPath, AllocFile, AllocateLowest;
    if CurrentPid(k).Some? {
      CallerSpace(k);
      var view := SpaceOf(k, CurrentPid(k).value);
      CopyInExact(view, e.path, e.pathLen);
      ReadableIsOk(view, e.path, e.pathLen);
      if Readable(view, e.path, e.pathLen) {
        var found := FindEmbedded(k.lim.embedded, CopyIn(view, e.path, e.pathLen).0);
        if found.Some? {
          PathRead(view, e.path, e.pathLen, k.lim.embedded[found.value].path);
        }
      }
    }
  }

  /** open of an embedded file: the lowest free descriptor is returned and refers to the
      lowest free slot, which holds that file at offset 0. It fails exactly when there is
      no free slot (ENFILE) or no free descriptor (EMFILE), and then changes nothing. */
  lemma OpenResult(k: Kernel, e: Event, k': Kernel, id: nat)
    requires Inv(k) && Next(k, e, k') && e.Open? && e.flags == 0 && 0 < e.pathLen <= 128 && CurrentPid(k).Some?
    requires CurrentPid(k).value in k.procs && k.procs[CurrentPid(k).value].root in k.spaces
    requires Names(k, k.spaces[k.procs[CurrentPid(k).value].root], e.path, e.pathLen, id)
    ensures
      var p := CurrentPid(k).value;
      var fds := k.procs[p].fds;
      && (AllTaken(Table(k)) ==> k' == Resumed(k, ENFILE))
      && (!AllTaken(Table(k)) && AllTaken(fds) ==> k' == Resumed(k, EMFILE))
      && (forall s: nat, fd: nat | FirstFree(Table(k), s) && FirstFree(fds, fd) ::
            k' == Resumed(k, fd).(files := Table(k)[s := Some(OpenFile(EmbeddedFile(id), ReadOnly, 0, 1))],
                                  procs := k.procs[p := k.procs[p].(fds := fds[fd := Some(s)])]))
  {
    hide Inv, CopyIn, Names, SysOpen, AllocFile, AllTaken, FirstFree;
    NamedIsFound(k, e.path, e.pathLen, id);
    FullTables(k);
    var p := CurrentPid(k).value;
    OpenNamed(k, e, id);
    SlotAllocation(k, EmbeddedFile(id));
    var (files, slot) := AllocFile(k.files, k.lim.files, EmbeddedFile(id), ReadOnly);
    if slot.Ok? {
      DescriptorAllocation(k.procs[p].fds, slot.value);
    }
  }

  lemma OpenNamed(k: Kernel, e: Event, id: nat)
    requires Inv(k) && e.Open? && e.flags == 0 && 0 < e.pathLen <= 128 && CurrentPid(k).Some? && CurrentPid(k).value in k.procs
    requires
      var (bytes, error) := CopyIn(SpaceOf(k, CurrentPid(k).value), e.path, e.pathLen);
      error.None? && FindEmbedded(k.lim.embedded, bytes) == Some(id)
    ensures
      var p := CurrentPid(k).value;
      var (files, slot) := AllocFile(k.files, k.lim.files, EmbeddedFile(id), ReadOnly);
      SysOpen(k, e.path, e.pathLen, e.flags) ==
        if slot.Err? then (k.(files := files), Err(MapFileError(slot.error)))
        else
          var (fds, fd) := AllocateLowest(k.procs[p].fds, slot.value);
          if fd.Err? then (k.(files := DecRef(files, slot.value)), Err(MapFileError(fd.error)))
          else (k.(files := files, procs := k.procs[p := k.procs[p].(fds := fds)]), Ok(fd.value))
  {
    hide Inv, CopyIn, AllocFile, AllocateLowest, DecRef, FindEmbedded;
  }

  /** Allocating a slot takes the first free one; releasing it again undoes that. */
  lemma SlotAllocation(k: Kernel, kind: OpenFileKind)
    requires k.lim.files > 0
    ensures
      var (files, slot) := AllocFile(k.files, k.lim.files, kind, ReadOnly);
      && (AllTaken(Table(k)) ==> k.files != [] && files == k.files && slot == Err(TooManySystemFiles))
      && (!AllTaken(Table(k)) ==>
            && slot.Ok? && FirstFree(Table(k), slot.value)
            && files == Table(k)[slot.value := Some(OpenFile(kind, ReadOnly, 0, 1))]
            && DecRef(files, slot.value) == Table(k))
      && (forall s: nat | FirstFree(Table(k), s) :: slot == Ok(s))
  {
    if k.files == [] {
      assert Table(k)[0].None?;
    }
  }

  lemma DescriptorAllocation(fds: FdTable, file: nat)
    ensures
      var (fds', fd) := AllocateLowest(fds, file);
      && (AllTaken(fds) ==> fd == Err(TooManyProcessFiles))
      && (!AllTaken(fds) ==> fd.Ok? && FirstFree(fds, fd.value) && fds' == fds[fd.value := Some(file)])
      && (forall i: nat | FirstFree(fds, i) :: fd == Ok(i))
  {
  }

  lemma NamedIsFound(k: Kernel, a: nat, n: nat, id: nat)
    requires Inv(k) && CurrentPid(k).Some? && CurrentPid(k).value in k.procs && k.procs[CurrentPid(k).value].root in k.spaces
    requires Names(k, k.spaces[k.procs[CurrentPid(k).value].root], a, n, id)
    ensures
      var (bytes, error) := CopyIn(SpaceOf(k, CurrentPid(k).value), a, n);
      error.None? && FindEmbedded(k.lim.embedded, bytes) == Some(id)
  {
    hide Inv, CopyIn;
    CallerSpace(k);
    var view := SpaceOf(k, CurrentPid(k).value);
    FindsIsReadable(view, a, k.lim.embedded[id].path);
    var bytes := CopyIn(view, a, n).0;
    PathRead(view, a, n, k.lim.embedded[id].path);
    forall j | 0 <= j < id ensures k.lim.embedded[j].path != bytes {
      PathRead(view, a, n, k.lim.embedded[j].path);
    }
    FoundIsFirst(k.lim.embedded, bytes, id);
  }

  lemma {:induction false} FoundIsFirst(registry: seq<Embedded>, path: seq<byte>, id: nat)
    requires id < |registry| && registry[id].path == path && forall j | 0 <= j < id :: registry[j].path != path
    ensures FindEmbedded(registry, path) == Some(id)
    decreases |registry|
  {
    var init := registry[..|registry| - 1];
    if id < |init| {
      FoundIsFirst(init, path, id);
    } else {
      assert FindEmbedded(init, path).None?;
    }
  }

  /** A process whose descriptors are all taken has the open-file table made. */
  lemma FullTables(k: Kernel)
    requires Inv(k) && CurrentPid(k).Some?
    ensures CurrentPid(k).value in k.procs && k.lim.files > 0
    ensures AllTaken(k.procs[CurrentPid(k).value].fds) ==> k.files != []
  {
    hide Inv;
    LiveProcess(k);
    FilesPart(k);
    var fds := k.procs[CurrentPid(k).value].fds;
    if AllTaken(fds) {
      assert Holds(k, CurrentPid(k).value, 0, fds[0].value);
      SlotHasHolder(k, fds[0].value);
    }
  }

  // ----- exits -----

  /** The end of a process closes exactly its own files; every other one stays as it is. */
  lemma EndCloses(k: Kernel, e: Event, k': Kernel, s: nat)
    requires Inv(k) && Next(k, e, k') && EndedPid(k, e).Some?
    ensures Occupied(k', s) <==> Occupied(k, s) && forall fd: nat :: !Holds(k, EndedPid(k, e).value, fd, s)
    ensures Occupied(k', s) ==> k'.files[s] == k.files[s]
  {
    hide Inv, Next, Leaves, HeapStep, ChildrenAfter, Occupied, KeptOrGone;
    SlotHasHolder(k, s);
    assert Inv(k') by { NextKeepsInv(k, e, k'); }
    SlotHasHolder(k', s);
    StepProcs(k, e, k');
    var z := EndedPid(k, e).value;
    forall p: nat, fd: nat | Holds(k', p, fd, s) ensures p != z && Holds(k, p, fd, s) {
      assert ProcStep(k, e, p, k'.procs[p], k'.nextPid);
    }
    forall p: nat, fd: nat | Holds(k, p, fd, s) && p != z ensures Holds(k', p, fd, s) {
      AliveStays(k, e, k', p);
    }
    if Occupied(k', s) {
      var p: nat, fd: nat :| Holds(k', p, fd, s);
      forall fd': nat ensures !Holds(k, z, fd', s) {
        if Holds(k, z, fd', s) {
          HolderIsUnique(k, s, p, fd, z, fd');
        }
      }
      StepSlots(k, e, k', s);
      KeptIfThere(k, k', s);
    }
  }

  lemma KeptIfThere(k: Kernel, k': Kernel, s: nat)
    requires Occupied(k, s) && Occupied(k', s) && KeptOrGone(k.files, k'.files, s)
    ensures k'.files[s] == k.files[s]
  {
  }
}

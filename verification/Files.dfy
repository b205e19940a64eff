/** Open files and descriptor tables: the functions say what each operation does to
    the tables, the class and methods do it the way file.rs and fd.rs do. */
module Files {
  import opened Base

  datatype OpenFileKind = NullInput | ConsoleStdout | ConsoleStderr | EmbeddedFile(id: nat)

  datatype AccessMode = ReadOnly | WriteOnly

  datatype OpenFile = OpenFile(kind: OpenFileKind, access: AccessMode, offset: nat, refCount: nat)

  datatype FileError = BadFd | TooManySystemFiles | TooManyProcessFiles

  /** One entry of the registry of files built into the kernel. */
  datatype Embedded = Embedded(path: seq<byte>, bytes: seq<byte>)

  type FileSlots = seq<Option<OpenFile>>

  /** descriptor -> open-file slot */
  type FdTable = seq<Option<nat>>

  // ----- lowest free slot -----

  /** `position(Option::is_none)` */
  function FirstNone<T>(s: seq<Option<T>>): (r: Option<nat>)
    ensures r.Some? ==> r.value < |s| && s[r.value].None? && forall j | 0 <= j < r.value :: s[j].Some?
    ensures r.None? ==> forall j | 0 <= j < |s| :: s[j].Some?
  {
    if s == [] then None
    else if s[0].None? then Some(0)
    else
      match FirstNone(s[1..])
      case None => None
      case Some(i) => Some(i + 1)
  }

  method FindNone<T>(s: seq<Option<T>>) returns (r: Option<nat>)
    ensures r == FirstNone(s)
  {
    var i := 0;
    while i < |s|
      invariant 0 <= i <= |s|
      invariant forall j | 0 <= j < i :: s[j].Some?
    {
      if s[i].None? {
        return Some(i);
      }
      i := i + 1;
    }
    r := None;
  }

  // ----- the open-file table -----

  /** `ensure_slots` */
  function Slots(files: FileSlots, max: nat): FileSlots {
    if files == [] then seq(max, _ => None) else files
  }

  /** `OpenFileTable::alloc` */
  function AllocFile(files: FileSlots, max: nat, kind: OpenFileKind, access: AccessMode): (FileSlots, Result<nat,
          FileError>) {
    var slots := Slots(files, max);
    match FirstNone(slots)
    case None => (slots, Err(TooManySystemFiles))
    case Some(i) => (slots[i := Some(OpenFile(kind, access, 0, 1))], Ok(i))
  }

  /** `OpenFileTable::dec_ref` */
  function DecRef(files: FileSlots, id: nat): FileSlots {
    if id >= |files| || files[id].None? then files
    else
      var f := files[id].value;
      var n := if f.refCount == 0 then 0 else f.refCount - 1;
      if n == 0 then files[id := None] else files[id := Some(f.(refCount := n))]
  }

  /** References the table believes slot `s` has. */
  function RefCount(files: FileSlots, s: nat): nat {
    if s < |files| && files[s].Some? then files[s].value.refCount else 0
  }

  /** Descriptors of one table that refer to slot `s`. */
  function CountFds(fds: FdTable, s: nat): nat {
    if fds == [] then 0
    else (if fds[|fds| - 1] == Some(s) then 1 else 0) + CountFds(fds[..|fds| - 1], s)
  }

  function One(b: bool): nat {
    if b then 1 else 0
  }

  class OpenFileTable {
    const max: nat
    var files: FileSlots

    constructor (max: nat)
      ensures this.max == max && files == []
    {
      this.max := max;
      files := [];
    }

    method Alloc(kind: OpenFileKind, access: AccessMode) returns (r: Result<nat, FileError>)
      modifies this
      ensures (files, r) == AllocFile(old(files), max, kind, access)
    {
      files := Slots(files, max);
      var index := FindNone(files);
      if index.Some? {
        files := files[index.value := Some(OpenFile(kind, access, 0, 1))];
        return Ok(index.value);
      }
      r := Err(TooManySystemFiles);
    }

    method Release(id: nat)
      modifies this
      ensures files == DecRef(old(files), id)
    {
      if id >= |files| || files[id].None? {
        return;
      }
      var f := files[id].value;
      var n := if f.refCount == 0 then 0 else f.refCount - 1;
      files := files[id := if n == 0 then None else Some(f.(refCount := n))];
    }

    /** `get_mut(id).set_offset(offset)` */
    method SetOffset(id: nat, offset: nat)
      requires id < |files| && files[id].Some?
      modifies this
      ensures files == old(files)[id := Some(old(files)[id].value.(offset := offset))]
    {
      files := files[id := Some(files[id].value.(offset := offset))];
    }
  }

  // ----- descriptor tables -----

  function EmptyFds(max: nat): (fds: FdTable)
    ensures |fds| == max
  {
    seq(max, _ => None)
  }

  /** `allocate_lowest` */
  function AllocateLowest(fds: FdTable, file: nat): (FdTable, Result<nat, FileError>) {
    match FirstNone(fds)
    case None => (fds, Err(TooManyProcessFiles))
    case Some(i) => (fds[i := Some(file)], Ok(i))
  }

  /** `FdTable::close` */
  function CloseFd(fds: FdTable, fd: nat, files: FileSlots): (FdTable, FileSlots, Option<FileError>) {
    if fd >= |fds| || fds[fd].None? then (fds, files, Some(BadFd))
    else (fds[fd := None], DecRef(files, fds[fd].value), None)
  }

  /** The open-file table after `close_all`, which closes the entries in order. */
  function CloseAllFiles(fds: FdTable, files: FileSlots): FileSlots {
    if fds == [] then files
    else
      var before := CloseAllFiles(fds[..|fds| - 1], files);
      if fds[|fds| - 1].Some? then DecRef(before, fds[|fds| - 1].value) else before
  }

  /** `new_with_stdio`: three descriptors, or an error with everything rolled back. */
  function NewWithStdio(files: FileSlots, maxFiles: nat, maxFds: nat): (FileSlots, Result<FdTable, FileError>)
    requires maxFds >= 3
  {
    var (files1, stdin) := AllocFile(files, maxFiles, NullInput, ReadOnly);
    if stdin.Err? then (files1, Err(stdin.error))
    else
      var table1 := EmptyFds(maxFds)[0 := Some(stdin.value)];
      var (files2, stdout) := AllocFile(files1, maxFiles, ConsoleStdout, WriteOnly);
      if stdout.Err? then (CloseAllFiles(table1, files2), Err(stdout.error))
      else
        var table2 := table1[1 := Some(stdout.value)];
        var (files3, stderr) := AllocFile(files2, maxFiles, ConsoleStderr, WriteOnly);
        if stderr.Err? then (CloseAllFiles(table2, files3), Err(stderr.error))
        else (files3, Ok(table2[2 := Some(stderr.value)]))
  }

  method CloseAll(fds: FdTable, openFiles: OpenFileTable) returns (closed: FdTable)
    modifies openFiles
    ensures openFiles.files == CloseAllFiles(fds, old(openFiles.files))
    ensures closed == EmptyFds(|fds|)
  {
    closed := fds;
    var i := 0;
    while i < |fds|
      invariant 0 <= i <= |fds| && |closed| == |fds|
      invariant forall j | 0 <= j < |fds| :: closed[j] == if j < i then None else fds[j]
      invariant openFiles.files == CloseAllFiles(fds[..i], old(openFiles.files))
    {
      assert fds[..i + 1][..i] == fds[..i];
      var entry := closed[i];
      if entry.Some? {
        closed := closed[i := None];
        openFiles.Release(entry.value);
      }
      i := i + 1;
    }
    assert fds[..|fds|] == fds;
  }

  method MakeStdio(openFiles: OpenFileTable, maxFds: nat) returns (r: Result<FdTable, FileError>)
    requires maxFds >= 3
    modifies openFiles
    ensures (openFiles.files, r) == NewWithStdio(old(openFiles.files), openFiles.max, maxFds)
  {
    var table := EmptyFds(maxFds);
    var stdin := openFiles.Alloc(NullInput, ReadOnly);
    if stdin.Err? {
      return Err(stdin.error);
    }
    table := table[0 := Some(stdin.value)];
    var stdout := openFiles.Alloc(ConsoleStdout, WriteOnly);
    if stdout.Err? {
      var _ := CloseAll(table, openFiles);
      return Err(stdout.error);
    }
    table := table[1 := Some(stdout.value)];
    var stderr := openFiles.Alloc(ConsoleStderr, WriteOnly);
    if stderr.Err? {
      var _ := CloseAll(table, openFiles);
      return Err(stderr.error);
    }
    r := Ok(table[2 := Some(stderr.value)]);
  }

  // ----- standard input, output and error -----

  /** `a`, `b` and `c` are the first three free slots. */
  predicate FirstThree(slots: FileSlots, a: nat, b: nat, c: nat) {
    && a < b < c < |slots| && slots[a].None? && slots[b].None? && slots[c].None?
    && forall j | 0 <= j < c && j != a && j != b :: slots[j].Some?
  }

  /** The slots with the three standard files opened there. */
  function WithStdio(slots: FileSlots, a: nat, b: nat, c: nat): FileSlots
    requires FirstThree(slots, a, b, c)
  {
    slots[a := Some(OpenFile(NullInput, ReadOnly, 0, 1))]
         [b := Some(OpenFile(ConsoleStdout, WriteOnly, 0, 1))]
         [c := Some(OpenFile(ConsoleStderr, WriteOnly, 0, 1))]
  }

  /** Descriptor 0 reads the null input, 1 and 2 write standard output and error, each in
      a slot of its own, the lowest that were free; no other descriptor is open. With
      fewer than three free slots nothing is opened. */
  lemma StdioExact(files: FileSlots, maxFiles: nat, maxFds: nat)
    requires maxFds >= 3 && maxFiles > 0
    ensures
      var slots := Slots(files, maxFiles);
      var (files', r) := NewWithStdio(files, maxFiles, maxFds);
      && (forall a: nat, b: nat, c: nat | FirstThree(slots, a, b, c) ::
            files' == WithStdio(slots, a, b, c) && r == Ok([Some(a), Some(b), Some(c)] + EmptyFds(maxFds - 3)))
      && ((forall a: nat, b: nat, c: nat :: !FirstThree(slots, a, b, c)) ==> r == Err(TooManySystemFiles) && files' == slots)
  {
    StdioRollsBack(files, maxFiles, maxFds);
    var slots := Slots(files, maxFiles);
    var (files', r) := NewWithStdio(files, maxFiles, maxFds);
    forall a: nat, b: nat, c: nat | FirstThree(slots, a, b, c)
      ensures files' == WithStdio(slots, a, b, c) && r == Ok([Some(a), Some(b), Some(c)] + EmptyFds(maxFds - 3))
    {
      StdioSucceeds(files, maxFiles, maxFds, a, b, c);
    }
    if r.Ok? {
      var a, b, c := StdioFound(files, maxFiles, maxFds);
    }
  }

  lemma AllocFirst(files: FileSlots, max: nat, kind: OpenFileKind, access: AccessMode, i: nat)
    requires i < |Slots(files, max)| && Slots(files, max)[i].None? && forall j | 0 <= j < i :: Slots(files, max)[j].Some?
    ensures AllocFile(files, max, kind, access) == (Slots(files, max)[i := Some(OpenFile(kind, access, 0, 1))], Ok(i))
  {
  }

  lemma StdioSucceeds(files: FileSlots, maxFiles: nat, maxFds: nat, a: nat, b: nat, c: nat)
    requires maxFds >= 3 && FirstThree(Slots(files, maxFiles), a, b, c)
    ensures NewWithStdio(files, maxFiles, maxFds) ==
              (WithStdio(Slots(files, maxFiles), a, b, c), Ok([Some(a), Some(b), Some(c)] + EmptyFds(maxFds - 3)))
  {
    hide AllocFile;
    AllocFirst(files, maxFiles, NullInput, ReadOnly, a);
    var files1 := Slots(files, maxFiles)[a := Some(OpenFile(NullInput, ReadOnly, 0, 1))];
    assert Slots(files1, maxFiles) == files1;
    AllocFirst(files1, maxFiles, ConsoleStdout, WriteOnly, b);
    var files2 := files1[b := Some(OpenFile(ConsoleStdout, WriteOnly, 0, 1))];
    assert Slots(files2, maxFiles) == files2;
    AllocFirst(files2, maxFiles, ConsoleStderr, WriteOnly, c);
    assert EmptyFds(maxFds)[0 := Some(a)][1 := Some(b)][2 := Some(c)] == [Some(a), Some(b), Some(c)] + EmptyFds(maxFds - 3);
  }

  lemma StdioFound(files: FileSlots, maxFiles: nat, maxFds: nat) returns (a: nat, b: nat, c: nat)
    requires maxFds >= 3 && NewWithStdio(files, maxFiles, maxFds).1.Ok?
    ensures FirstThree(Slots(files, maxFiles), a, b, c)
  {
    var (files1, stdin) := AllocFile(files, maxFiles, NullInput, ReadOnly);
    assert Slots(files1, maxFiles) == files1;
    var (files2, stdout) := AllocFile(files1, maxFiles, ConsoleStdout, WriteOnly);
    assert Slots(files2, maxFiles) == files2;
    var (files3, stderr) := AllocFile(files2, maxFiles, ConsoleStderr, WriteOnly);
    a, b, c := stdin.value, stdout.value, stderr.value;
    var slots := Slots(files, maxFiles);
    assert forall j | 0 <= j <= a :: files1[j].Some?;
    assert a < b && files1[b].None? && forall j | 0 <= j <= b :: files2[j].Some?;
    assert b < c && files2[c].None?;
    forall j | 0 <= j < c && j != a && j != b ensures slots[j].Some? {
      assert files2[j].Some? && files1[j] == slots[j] && files2[j] == files1[j];
    }
  }

  // ----- conservation of references -----

  lemma AllocCounts(files: FileSlots, max: nat, kind: OpenFileKind, access: AccessMode, s: nat)
    ensures
      var (files', r) := AllocFile(files, max, kind, access);
      RefCount(files', s) == RefCount(files, s) + One(r == Ok(s))
  {
  }

  lemma DecRefCounts(files: FileSlots, id: nat, s: nat)
    requires RefCount(files, id) > 0
    ensures RefCount(DecRef(files, id), s) == RefCount(files, s) - One(s == id)
  {
  }

  lemma {:induction false} CountOfUpdate(fds: FdTable, i: nat, entry: Option<nat>, s: nat)
    requires i < |fds|
    ensures CountFds(fds[i := entry], s) == CountFds(fds, s) + One(entry == Some(s)) - One(fds[i] == Some(s))
    decreases |fds|
  {
    if i < |fds| - 1 {
      CountOfUpdate(fds[..|fds| - 1], i, entry, s);
      assert fds[i := entry][..|fds| - 1] == fds[..|fds| - 1][i := entry];
    } else {
      assert fds[i := entry][..|fds| - 1] == fds[..|fds| - 1];
    }
  }

  lemma {:induction false} CountOfNone(fds: FdTable, s: nat)
    requires forall j | 0 <= j < |fds| :: fds[j].None?
    ensures CountFds(fds, s) == 0
  {
    if fds != [] {
      CountOfNone(fds[..|fds| - 1], s);
    }
  }

  lemma {:induction false} CountPositive(fds: FdTable, s: nat)
    ensures CountFds(fds, s) > 0 <==> Some(s) in fds
  {
    if fds != [] {
      var init := fds[..|fds| - 1];
      CountPositive(init, s);
      assert fds == init + [fds[|fds| - 1]];
    }
  }

  /** Closing a whole table gives back exactly the references it held. */
  lemma {:induction false} CloseAllCounts(fds: FdTable, files: FileSlots, s: nat)
    requires forall t: nat :: CountFds(fds, t) <= RefCount(files, t)
    ensures RefCount(CloseAllFiles(fds, files), s) == RefCount(files, s) - CountFds(fds, s)
  {
    if fds != [] {
      var init, last := fds[..|fds| - 1], fds[|fds| - 1];
      forall t: nat ensures CountFds(init, t) <= RefCount(files, t) {
        assert CountFds(fds, t) <= RefCount(files, t);
      }
      CloseAllCounts(init, files, s);
      if last.Some? {
        assert CountFds(fds, last.value) <= RefCount(files, last.value);
        CloseAllCounts(init, files, last.value);
        DecRefCounts(CloseAllFiles(init, files), last.value, s);
      }
    }
  }

  /** Undoing an allocation restores the table. */
  lemma AllocThenDecRef(files: FileSlots, max: nat, kind: OpenFileKind, access: AccessMode)
    requires files != []
    ensures
      var (files', r) := AllocFile(files, max, kind, access);
      r.Ok? ==> DecRef(files', r.value) == files
  {
  }

  lemma {:induction false} CloseAllTail(fds: FdTable, files: FileSlots, m: nat)
    requires m <= |fds| && forall j | m <= j < |fds| :: fds[j].None?
    ensures CloseAllFiles(fds, files) == CloseAllFiles(fds[..m], files)
    decreases |fds|
  {
    if m < |fds| {
      CloseAllTail(fds[..|fds| - 1], files, m);
      assert fds[..|fds| - 1][..m] == fds[..m];
    } else {
      assert fds[..m] == fds;
    }
  }

  /** If any of the three allocations fails, the table is exactly as it was. */
  lemma StdioRollsBack(files: FileSlots, maxFiles: nat, maxFds: nat)
    requires maxFds >= 3 && maxFiles > 0
    ensures
      var (files', r) := NewWithStdio(files, maxFiles, maxFds);
      r.Err? ==> files' == Slots(files, maxFiles)
  {
    var slots := Slots(files, maxFiles);
    var (files1, stdin) := AllocFile(files, maxFiles, NullInput, ReadOnly);
    if stdin.Ok? {
      AllocThenDecRef(slots, maxFiles, NullInput, ReadOnly);
      var table1 := EmptyFds(maxFds)[0 := Some(stdin.value)];
      var (files2, stdout) := AllocFile(files1, maxFiles, ConsoleStdout, WriteOnly);
      assert Slots(files1, maxFiles) == files1;
      if stdout.Err? {
        CloseAllTail(table1, files2, 1);
        assert table1[..1] == [Some(stdin.value)];
        assert CloseAllFiles([Some(stdin.value)], files2) == DecRef(files2, stdin.value);
      } else {
        AllocThenDecRef(files1, maxFiles, ConsoleStdout, WriteOnly);
        var table2 := table1[1 := Some(stdout.value)];
        var (files3, stderr) := AllocFile(files2, maxFiles, ConsoleStderr, WriteOnly);
        if stderr.Err? {
          CloseAllTail(table2, files3, 2);
          assert table2[..2] == [Some(stdin.value), Some(stdout.value)];
          CloseTwo(stdin.value, stdout.value, files3);
          DecRefsCommute(files3, stdin.value, stdout.value);
        }
      }
    }
  }

  lemma CloseTwo(a: nat, b: nat, files: FileSlots)
    ensures CloseAllFiles([Some(a), Some(b)], files) == DecRef(DecRef(files, a), b)
  {
    var fds: FdTable := [Some(a), Some(b)];
    assert fds[..1] == [Some(a)];
    assert CloseAllFiles([Some(a)], files) == DecRef(files, a);
  }

  lemma DecRefsCommute(files: FileSlots, a: nat, b: nat)
    requires a != b
    ensures DecRef(DecRef(files, a), b) == DecRef(DecRef(files, b), a)
  {
  }

  /** Three new references on success, none on failure. */
  lemma StdioCounts(files: FileSlots, maxFiles: nat, maxFds: nat, s: nat)
    requires maxFds >= 3 && maxFiles > 0
    ensures
      var (files', r) := NewWithStdio(files, maxFiles, maxFds);
      && RefCount(files', s) == RefCount(files, s) + (if r.Ok? then CountFds(r.value, s) else 0)
      && (r.Ok? ==> |r.value| == maxFds)
  {
    StdioRollsBack(files, maxFiles, maxFds);
    var (files1, stdin) := AllocFile(files, maxFiles, NullInput, ReadOnly);
    AllocCounts(files, maxFiles, NullInput, ReadOnly, s);
    if stdin.Ok? {
      var table0 := EmptyFds(maxFds);
      var table1 := table0[0 := Some(stdin.value)];
      CountOfNone(table0, s);
      CountOfUpdate(table0, 0, Some(stdin.value), s);
      var (files2, stdout) := AllocFile(files1, maxFiles, ConsoleStdout, WriteOnly);
      AllocCounts(files1, maxFiles, ConsoleStdout, WriteOnly, s);
      if stdout.Ok? {
        var table2 := table1[1 := Some(stdout.value)];
        CountOfUpdate(table1, 1, Some(stdout.value), s);
        var (files3, stderr) := AllocFile(files2, maxFiles, ConsoleStderr, WriteOnly);
        AllocCounts(files2, maxFiles, ConsoleStderr, WriteOnly, s);
        if stderr.Ok? {
          CountOfUpdate(table2, 2, Some(stderr.value), s);
        }
      }
    }
  }
}

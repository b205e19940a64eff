/** The process table: parents, children, zombies and reaping. */
module Processes {
  import opened Base
  import opened LittleEndian
  import opened UserLayout
  import opened Files

  type i32 = v: int | -0x8000_0000 <= v < 0x8000_0000

  datatype ProcessExit = Exited(code: i32) | Faulted

  /** `Alive` is the kernel's `Running` state of a process. */
  datatype ProcessState = Alive | Zombie(exit: ProcessExit)

  datatype Process = Process(
    pid: nat, parent: Option<nat>, children: seq<nat>, state: ProcessState,
    root: nat, heap: UserHeap, fds: FdTable, mainTask: nat, orphaned: bool)

  datatype ProcessError = TableFull | File(error: FileError) | MissingParent | NotFound | NotChild | NotZombie

  /** The occupied slots of the table, by pid. */
  type Procs = map<nat, Process>

  // ----- wait status -----

  /** `exit_code as i32` of a 64-bit value */
  function ToI32(v: nat): (r: i32)
    ensures (r - v) % U32 == 0
  {
    var w := v % U32;
    if w < 0x8000_0000 then w else w - U32
  }

  /** The two's-complement bits of an `i32` */
  function Bits32(v: i32): nat {
    if v >= 0 then v else v + U32
  }

  /** `wait_status_bytes`: kind (0 exited, 1 faulted), then the code. */
  function StatusBytes(exit: ProcessExit): (b: seq<byte>)
    ensures |b| == 8
  {
    match exit
    case Exited(code) => Encode(0, 4) + Encode(Bits32(code), 4)
    case Faulted => Encode(1, 4) + Encode(0, 4)
  }

  /** A parent reads back from the status bytes whether the child faulted and the
      low 32 bits of the code it passed to exit. */
  lemma StatusReadBack(code: nat)
    ensures Decode(StatusBytes(Exited(ToI32(code)))[..4]) == 0
    ensures Decode(StatusBytes(Exited(ToI32(code)))[4..]) == code % U32
    ensures Decode(StatusBytes(Faulted)[..4]) == 1 && Decode(StatusBytes(Faulted)[4..]) == 0
  {
    Widths();
    var bits := Bits32(ToI32(code));
    assert bits == code % U32;
    DecodeEncode(0, 4);
    DecodeEncode(1, 4);
    DecodeEncode(bits, 4);
    assert StatusBytes(Exited(ToI32(code)))[..4] == Encode(0, 4);
    assert StatusBytes(Exited(ToI32(code)))[4..] == Encode(bits, 4);
    assert StatusBytes(Faulted)[..4] == Encode(1, 4) && StatusBytes(Faulted)[4..] == Encode(0, 4);
  }

  // ----- operations -----

  predicate IsChild(procs: Procs, parent: nat, child: nat) {
    parent in procs && child in procs[parent].children
  }

  predicate IsZombie(procs: Procs, pid: nat) {
    pid in procs && procs[pid].state.Zombie?
  }

  /** `can_create` */
  function CanCreate(procs: Procs, nextPid: nat, max: nat, parent: Option<nat>): Option<ProcessError> {
    if |procs| >= max || nextPid > max then Some(TableFull)
    else if parent.Some? && parent.value !in procs then Some(MissingParent)
    else None
  }

  /** The table after `create`, when `can_create` allows it. */
  function Create(procs: Procs, pid: nat, parent: Option<nat>, root: nat, heap: UserHeap, fds: FdTable,
          task: nat): Procs {
    var added := procs[pid := Process(pid, parent, [], Alive, root, heap, fds, task, false)];
    if parent.Some? && parent.value in added
    then added[parent.value := added[parent.value].(children := added[parent.value].children + [pid])]
    else added
  }

  /** What `mark_exited` does to one child of the exiting process. */
  function OrphanOne(procs: Procs, child: nat): Procs {
    if child !in procs then procs
    else if procs[child].state.Zombie? then procs - {child}
    else procs[child := procs[child].(parent := None, orphaned := true)]
  }

  function OrphanAll(procs: Procs, children: seq<nat>): Procs {
    if children == [] then procs
    else OrphanOne(OrphanAll(procs, children[..|children| - 1]), children[|children| - 1])
  }

  /** The table after `mark_exited` */
  function MarkExited(procs: Procs, pid: nat, exit: ProcessExit): Procs
    requires pid in procs
  {
    var p := procs[pid];
    OrphanAll(procs[pid := p.(state := Zombie(exit), fds := EmptyFds(|p.fds|), children := [])], p.children)
  }

  function RemoveAll(s: seq<nat>, x: nat): (r: seq<nat>)
    ensures forall y :: y in r <==> y in s && y != x
  {
    if s == [] then []
    else
      var before := RemoveAll(s[..|s| - 1], x);
      assert s == s[..|s| - 1] + [s[|s| - 1]];
      if s[|s| - 1] == x then before else before + [s[|s| - 1]]
  }

  /** The table after a successful `reap_child` */
  function ReapChild(procs: Procs, parent: nat, child: nat): Procs
    requires parent in procs
  {
    procs[parent := procs[parent].(children := RemoveAll(procs[parent].children, child))] - {child}
  }

  /** The table after `reap_orphan_if_zombie` */
  function ReapOrphan(procs: Procs, pid: nat): Procs {
    if pid in procs && procs[pid].orphaned && procs[pid].state.Zombie? then procs - {pid} else procs
  }

  // ----- the family tree -----

  predicate NoDuplicates(s: seq<nat>) {
    forall i, j | 0 <= i < j < |s| :: s[i] != s[j]
  }

  /** Child lists have no duplicates and hold exactly the processes in the table that
      name the list's owner as parent; parents have smaller pids; a process without
      its parent link is either a root or marked orphaned. */
  ghost predicate FamilyOk(procs: Procs) {
    ListsDistinct(procs) && ListsSound(procs) && ParentsSound(procs)
  }

  ghost predicate ListsDistinct(procs: Procs) {
    forall p | p in procs :: NoDuplicates(procs[p].children)
  }

  ghost predicate ListsSound(procs: Procs) {
    forall p, c | p in procs && c in procs[p].children :: c in procs && procs[c].parent == Some(p)
  }

  ghost predicate ParentsSound(procs: Procs) {
    forall c | c in procs && procs[c].parent.Some? ::
      var p := procs[c].parent.value;
      p < c && !procs[c].orphaned && (p in procs ==> c in procs[p].children)
  }

  /** No orphaned zombie is left in the table, except perhaps one. */
  ghost predicate OrphansAlive(procs: Procs, except: Option<nat>) {
    forall c | c in procs && procs[c].orphaned && except != Some(c) :: procs[c].state.Alive?
  }

  /** What is left of process `q` once the processes in `children` are orphaned. */
  function Orphaned(procs: Procs, children: seq<nat>, q: nat): Option<Process> {
    if q !in procs then None
    else if q !in children then Some(procs[q])
    else if procs[q].state.Zombie? then None
    else Some(procs[q].(parent := None, orphaned := true))
  }

  function Lookup(procs: Procs, q: nat): Option<Process> {
    if q in procs then Some(procs[q]) else None
  }

  lemma {:induction false} OrphanAllExact(procs: Procs, children: seq<nat>, q: nat)
    ensures Lookup(OrphanAll(procs, children), q) == Orphaned(procs, children, q)
  {
    if children != [] {
      var init := children[..|children| - 1];
      assert children == init + [children[|children| - 1]];
      OrphanAllExact(procs, init, q);
    }
  }

  /** The table after an exit, entry by entry. */
  lemma MarkExitedExact(procs: Procs, pid: nat, exit: ProcessExit, q: nat)
    requires pid in procs && pid !in procs[pid].children
    ensures Lookup(MarkExited(procs, pid, exit), q) ==
              if q == pid then Some(procs[pid].(state := Zombie(exit), fds := EmptyFds(|procs[pid].fds|), children := []))
              else Orphaned(procs, procs[pid].children, q)
  {
    var p := procs[pid];
    var procs' := procs[pid := p.(state := Zombie(exit), fds := EmptyFds(|p.fds|), children := [])];
    OrphanAllExact(procs', p.children, q);
  }

  lemma CreateFamily(procs: Procs, pid: nat, parent: Option<nat>, root: nat, heap: UserHeap, fds: FdTable, task: nat)
    requires FamilyOk(procs) && forall q | q in procs :: q < pid
    requires parent.Some? ==> parent.value in procs
    ensures FamilyOk(Create(procs, pid, parent, root, heap, fds, task))
  {
    var procs' := Create(procs, pid, parent, root, heap, fds, task);
    assert pid !in procs;
    forall p | p in procs' ensures NoDuplicates(procs'[p].children) {
    }
  }

  /** `procs'` is the table after `pid` exits. */
  ghost predicate AfterExit(procs: Procs, pid: nat, exit: ProcessExit, procs': Procs)
    requires pid in procs
  {
    forall q: nat :: Lookup(procs', q) ==
      if q == pid then Some(procs[pid].(state := Zombie(exit), fds := EmptyFds(|procs[pid].fds|), children := []))
      else Orphaned(procs, procs[pid].children, q)
  }

  lemma MarkExitedAll(procs: Procs, pid: nat, exit: ProcessExit)
    requires pid in procs && pid !in procs[pid].children
    ensures AfterExit(procs, pid, exit, MarkExited(procs, pid, exit))
  {
    forall q: nat
      ensures Lookup(MarkExited(procs, pid, exit), q) ==
                if q == pid then Some(procs[pid].(state := Zombie(exit), fds := EmptyFds(|procs[pid].fds|), children := []))
                else Orphaned(procs, procs[pid].children, q)
    {
      MarkExitedExact(procs, pid, exit, q);
    }
  }

  lemma ExitLists(procs: Procs, pid: nat, exit: ProcessExit, procs': Procs)
    requires FamilyOk(procs) && pid in procs && AfterExit(procs, pid, exit, procs')
    ensures ListsDistinct(procs') && ListsSound(procs')
  {
    forall p | p in procs' ensures NoDuplicates(procs'[p].children) {
      assert Lookup(procs', p) == Some(procs'[p]);
      assert p in procs && NoDuplicates(procs[p].children);
    }
    forall p, c | p in procs' && c in procs'[p].children ensures c in procs' && procs'[c].parent == Some(p) {
      assert Lookup(procs', p) == Some(procs'[p]);
      assert p != pid && c in procs[p].children;
      assert procs[c].parent == Some(p) && c !in procs[pid].children;
      assert Lookup(procs', c).Some?;
    }
  }

  lemma ExitParents(procs: Procs, pid: nat, exit: ProcessExit, procs': Procs)
    requires FamilyOk(procs) && pid in procs && AfterExit(procs, pid, exit, procs')
    requires OrphansAlive(procs, Some(pid))
    ensures ParentsSound(procs') && OrphansAlive(procs', Some(pid))
  {
    forall c | c in procs' && procs'[c].parent.Some?
      ensures
        var p := procs'[c].parent.value;
        p < c && !procs'[c].orphaned && (p in procs' ==> c in procs'[p].children)
    {
      assert Lookup(procs', c) == Some(procs'[c]);
      var p := procs'[c].parent.value;
      assert c in procs && procs[c].parent == Some(p);
      if p in procs' {
        assert Lookup(procs', p) == Some(procs'[p]);
      }
    }
    forall c | c in procs' && procs'[c].orphaned && c != pid ensures procs'[c].state.Alive? {
      assert Lookup(procs', c) == Some(procs'[c]);
    }
  }

  lemma MarkExitedFamily(procs: Procs, pid: nat, exit: ProcessExit)
    requires FamilyOk(procs) && pid in procs && OrphansAlive(procs, Some(pid))
    ensures FamilyOk(MarkExited(procs, pid, exit)) && OrphansAlive(MarkExited(procs, pid, exit), Some(pid))
    ensures AfterExit(procs, pid, exit, MarkExited(procs, pid, exit))
  {
    assert pid !in procs[pid].children;
    MarkExitedAll(procs, pid, exit);
    ExitLists(procs, pid, exit, MarkExited(procs, pid, exit));
    ExitParents(procs, pid, exit, MarkExited(procs, pid, exit));
  }

  lemma {:induction false} RemoveAllNoDuplicates(s: seq<nat>, x: nat)
    requires NoDuplicates(s)
    ensures NoDuplicates(RemoveAll(s, x))
  {
    if s != [] {
      var init := s[..|s| - 1];
      RemoveAllNoDuplicates(init, x);
      assert s[|s| - 1] !in init;
    }
  }

  lemma ReapChildFamily(procs: Procs, parent: nat, child: nat)
    requires FamilyOk(procs) && IsChild(procs, parent, child)
    ensures FamilyOk(ReapChild(procs, parent, child))
  {
    var procs' := ReapChild(procs, parent, child);
    assert procs[child].parent == Some(parent);
    forall p | p in procs' ensures NoDuplicates(procs'[p].children) {
      RemoveAllNoDuplicates(procs[p].children, child);
    }
  }

  lemma ReapOrphanFamily(procs: Procs, pid: nat)
    requires FamilyOk(procs) && OrphansAlive(procs, Some(pid))
    ensures FamilyOk(ReapOrphan(procs, pid)) && OrphansAlive(ReapOrphan(procs, pid), None)
  {
  }
}

/** The process table as process.rs keeps it: slots indexed by pid, changed in place.
    Every method is proved against the functions of `Processes`. */
module ProcessTables {
  import opened Base
  import opened UserLayout
  import opened Files
  import opened Processes

  type ProcessSlots = seq<Option<Process>>

  function SlotAt(slots: ProcessSlots, p: nat): Option<Process> {
    if p < |slots| then slots[p] else None
  }

  /** The occupied slots among the first `n`. */
  function Occupied(slots: ProcessSlots, n: nat): nat
    requires n <= |slots|
  {
    if n == 0 then 0 else Occupied(slots, n - 1) + (if slots[n - 1].Some? then 1 else 0)
  }

  /** `procs` is what the slots hold. */
  ghost predicate Represents(slots: ProcessSlots, procs: Procs) {
    forall p: nat :: Lookup(procs, p) == SlotAt(slots, p)
  }

  lemma SlotRepresents(slots: ProcessSlots, procs: Procs, p: nat)
    requires Represents(slots, procs)
    ensures SlotAt(slots, p) == Lookup(procs, p)
  {
  }

  lemma HoldsUpdate(slots: ProcessSlots, procs: Procs, p: nat, process: Process)
    requires Represents(slots, procs) && p < |slots|
    ensures Represents(slots[p := Some(process)], procs[p := process])
  {
    var slots', procs' := slots[p := Some(process)], procs[p := process];
    forall q: nat ensures Lookup(procs', q) == SlotAt(slots', q) {
      SlotRepresents(slots, procs, q);
    }
  }

  lemma HoldsRemoval(slots: ProcessSlots, procs: Procs, p: nat)
    requires Represents(slots, procs) && p < |slots|
    ensures Represents(slots[p := None], procs - {p})
  {
    var slots', procs' := slots[p := None], procs - {p};
    forall q: nat ensures Lookup(procs', q) == SlotAt(slots', q) {
      SlotRepresents(slots, procs, q);
    }
  }

  /** Counting occupied slots gives the number of processes. */
  lemma {:induction false} CountsProcesses(slots: ProcessSlots, procs: Procs, n: nat, below: set<nat>)
    requires Represents(slots, procs) && n <= |slots|
    requires below == set p | p in procs && p < n
    ensures Occupied(slots, n) == |below|
  {
    if n > 0 {
      var smaller := set p | p in procs && p < n - 1;
      CountsProcesses(slots, procs, n - 1, smaller);
      SlotRepresents(slots, procs, n - 1);
      if slots[n - 1].Some? {
        assert below == smaller + {n - 1};
      } else {
        assert below == smaller;
      }
    } else {
      assert below == {};
    }
  }

  class ProcessTable {
    const max: nat
    var processes: ProcessSlots
    var nextPid: nat
    /** The occupied slots, by pid. */
    ghost var procs: Procs

    ghost predicate Valid()
      reads this
    {
      && Represents(processes, procs)
      && (processes == [] || |processes| == max + 1)
      && nextPid > 0
    }

    constructor (max: nat)
      ensures Valid() && this.max == max && procs == map[] && nextPid == 1
    {
      this.max := max;
      processes := [];
      nextPid := 1;
      procs := map[];
    }

    /** `get` */
    function Get(pid: nat): (r: Option<Process>)
      requires Valid()
      reads this
      ensures r == Lookup(procs, pid)
    {
      SlotRepresents(processes, procs, pid);
      SlotAt(processes, pid)
    }

    /** `active_count` */
    method ActiveCount() returns (count: nat)
      requires Valid()
      ensures count == |procs|
    {
      count := 0;
      var i := 0;
      while i < |processes|
        invariant 0 <= i <= |processes| && count == Occupied(processes, i)
      {
        if processes[i].Some? {
          count := count + 1;
        }
        i := i + 1;
      }
      ghost var below := set p | p in procs && p < |processes|;
      CountsProcesses(processes, procs, |processes|, below);
      forall p | p in procs ensures p < |processes| {
        SlotRepresents(processes, procs, p);
      }
      assert below == procs.Keys;
    }

    /** `can_create` */
    method CanCreate(parent: Option<nat>) returns (error: Option<ProcessError>)
      requires Valid()
      ensures error == Processes.CanCreate(procs, nextPid, max, parent)
    {
      var count := ActiveCount();
      if count >= max {
        return Some(TableFull);
      }
      if nextPid > max {
        return Some(TableFull);
      }
      if parent.Some? && Get(parent.value).None? {
        return Some(MissingParent);
      }
      error := None;
    }

    /** `create` */
    method Create(parent: Option<nat>, root: nat, heap: UserHeap, fds: FdTable, task: nat)
      returns (r: Result<nat, ProcessError>)
      requires Valid()
      modifies this
      ensures Valid()
      ensures
        var error := Processes.CanCreate(old(procs), old(nextPid), max, parent);
        if error.Some? then r == Err(error.value) && procs == old(procs) && nextPid == old(nextPid)
        else
          && r == Ok(old(nextPid)) && nextPid == old(nextPid) + 1
          && procs == Processes.Create(old(procs), old(nextPid), parent, root, heap, fds, task)
    {
      var error := CanCreate(parent);
      if error.Some? {
        return Err(error.value);
      }
      if processes == [] {
        processes := seq(max + 1, _ => None);
        EmptySlots(procs);
      }
      var pid := nextPid;
      nextPid := nextPid + 1;
      var process := Process(pid, parent, [], Alive, root, heap, fds, task, false);
      HoldsUpdate(processes, procs, pid, process);
      processes := processes[pid := Some(process)];
      procs := procs[pid := process];
      if parent.Some? {
        SlotRepresents(processes, procs, parent.value);
        var owner := processes[parent.value].value;
        var extended := owner.(children := owner.children + [pid]);
        HoldsUpdate(processes, procs, parent.value, extended);
        processes := processes[parent.value := Some(extended)];
        procs := procs[parent.value := extended];
      }
      r := Ok(pid);
    }

    lemma EmptySlots(before: Procs)
      requires Represents([], before)
      ensures Represents(seq(max + 1, _ => None), before)
    {
      forall p: nat ensures Lookup(before, p) == SlotAt(seq(max + 1, _ => None), p) {
        SlotRepresents([], before, p);
      }
    }

    /** Writes back a process changed through `get_mut`. */
    method Put(pid: nat, process: Process)
      requires Valid() && pid in procs
      modifies this
      ensures Valid() && nextPid == old(nextPid) && procs == old(procs)[pid := process]
    {
      SlotRepresents(processes, procs, pid);
      HoldsUpdate(processes, procs, pid, process);
      processes := processes[pid := Some(process)];
      procs := procs[pid := process];
    }

    /** Clears a slot. */
    method Clear(pid: nat)
      requires Valid() && pid in procs
      modifies this
      ensures Valid() && nextPid == old(nextPid) && procs == old(procs) - {pid}
    {
      SlotRepresents(processes, procs, pid);
      HoldsRemoval(processes, procs, pid);
      processes := processes[pid := None];
      procs := procs - {pid};
    }

    /** `mark_exited` */
    method MarkExited(pid: nat, exit: ProcessExit, openFiles: OpenFileTable) returns (error: Option<ProcessError>)
      requires Valid()
      modifies this, openFiles
      ensures Valid() && nextPid == old(nextPid)
      ensures
        if pid in old(procs) then
          && error.None?
          && procs == Processes.MarkExited(old(procs), pid, exit)
          && openFiles.files == CloseAllFiles(old(procs)[pid].fds, old(openFiles.files))
        else error == Some(NotFound) && procs == old(procs) && openFiles.files == old(openFiles.files)
    {
      var found := Get(pid);
      if found.None? {
        return Some(NotFound);
      }
      var process := found.value;
      var closed := CloseAll(process.fds, openFiles);
      Put(pid, process.(state := Zombie(exit), fds := closed, children := []));
      ghost var before := procs;
      var i := 0;
      while i < |process.children|
        invariant 0 <= i <= |process.children| && Valid() && nextPid == old(nextPid)
        invariant procs == OrphanAll(before, process.children[..i])
        invariant openFiles.files == CloseAllFiles(old(procs)[pid].fds, old(openFiles.files))
      {
        assert process.children[..i + 1][..i] == process.children[..i];
        var child := process.children[i];
        var entry := Get(child);
        if entry.Some? {
          Put(child, entry.value.(parent := None, orphaned := true));
          if entry.value.state.Zombie? {
            Clear(child);
          }
        }
        i := i + 1;
      }
      assert process.children[..|process.children|] == process.children;
      error := None;
    }

    /** `remove_child`: keeps the other pids, in order. */
    method RemoveChild(children: seq<nat>, child: nat) returns (kept: seq<nat>)
      ensures kept == RemoveAll(children, child)
    {
      kept := [];
      var i := 0;
      while i < |children|
        invariant 0 <= i <= |children| && kept == RemoveAll(children[..i], child)
      {
        assert children[..i + 1][..i] == children[..i];
        if children[i] != child {
          kept := kept + [children[i]];
        }
        i := i + 1;
      }
      assert children[..|children|] == children;
    }

    /** `reap_child` */
    method ReapChild(parent: nat, child: nat) returns (r: Result<ProcessExit, ProcessError>)
      requires Valid()
      modifies this
      ensures Valid() && nextPid == old(nextPid)
      ensures
        if IsChild(old(procs), parent, child) && IsZombie(old(procs), child) then
          r == Ok(old(procs)[child].state.exit) && procs == Processes.ReapChild(old(procs), parent, child)
        else
          && procs == old(procs)
          && r == Err(if !IsChild(procs, parent, child) then NotChild else if child !in procs then NotFound else NotZombie)
    {
      var owner := Get(parent);
      if owner.None? || child !in owner.value.children {
        return Err(NotChild);
      }
      var entry := Get(child);
      if entry.None? {
        return Err(NotFound);
      }
      if entry.value.state.Alive? {
        return Err(NotZombie);
      }
      var kept := RemoveChild(owner.value.children, child);
      Put(parent, owner.value.(children := kept));
      Clear(child);
      r := Ok(entry.value.state.exit);
    }

    /** `reap_orphan_if_zombie` */
    method ReapOrphanIfZombie(pid: nat)
      requires Valid()
      modifies this
      ensures Valid() && nextPid == old(nextPid) && procs == ReapOrphan(old(procs), pid)
    {
      var entry := Get(pid);
      if entry.Some? && entry.value.orphaned && entry.value.state.Zombie? {
        Clear(pid);
      }
    }
  }
}

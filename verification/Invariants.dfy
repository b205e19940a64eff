/** What holds in every reachable state of the kernel. */
module Invariants {
  import opened Base
  import opened UserSpaces
  import opened UserLayout
  import opened Files
  import opened Processes
  import opened Kernel

  // ----- the parts -----

  /** Task and process agree: pids are never shared, a process is alive exactly while
      its main task is not terminal, and every live user task has its process. */
  ghost predicate PidsOk(tasks: seq<Task>, procs: Procs, nextPid: nat, lim: Limits) {
    && 1 <= nextPid <= lim.processes + 1
    && (forall i | 0 <= i < |tasks| && tasks[i].pid.Some? :: 1 <= tasks[i].pid.value < nextPid)
    && (forall i, j | 0 <= i < j < |tasks| && tasks[i].pid.Some? :: tasks[i].pid != tasks[j].pid)
    && (forall p | p in procs :: MainTaskOk(tasks, procs[p], p, nextPid))
    && (forall i | 0 <= i < |tasks| && tasks[i].pid.Some? && !tasks[i].Terminal() ::
          tasks[i].pid.value in procs && procs[tasks[i].pid.value].mainTask == i)
  }

  ghost predicate MainTaskOk(tasks: seq<Task>, process: Process, p: nat, nextPid: nat) {
    && 1 <= p < nextPid && process.pid == p
    && process.mainTask < |tasks| && tasks[process.mainTask].pid == Some(p)
    && (process.state.Alive? <==> !tasks[process.mainTask].Terminal())
  }

  /** A blocked task waits for a live child of its own, and the eight bytes for the
      status stay writable. */
  ghost predicate WaitOk(t: Task, procs: Procs, spaces: map<nat, UserSpace>) {
    t.state.Blocked? ==>
      && t.pid.Some? && t.pid.value in procs
      && t.state.child in procs[t.pid.value].children
      && t.state.child in procs && procs[t.state.child].state.Alive?
      && (t.state.statusPtr.Some? ==>
            procs[t.pid.value].root in spaces
            && RangeOk(spaces[procs[t.pid.value].root], t.state.statusPtr.value, STATUS_SIZE, Write))
  }

  predicate BlockedOn(t: Task, child: nat) {
    t.state.Blocked? && t.state.child == child
  }

  /** Every waiter is in order, except one waiting for `except`. */
  ghost predicate WaitsOk(tasks: seq<Task>, procs: Procs, spaces: map<nat, UserSpace>, except: Option<nat>) {
    forall i | 0 <= i < |tasks| && !(except.Some? && BlockedOn(tasks[i], except.value)) :: WaitOk(tasks[i], procs, spaces)
  }

  /** References process `p` holds to open-file slot `s`. */
  function HeldBy(procs: Procs, p: nat, s: nat): nat {
    if p in procs then CountFds(procs[p].fds, s) else 0
  }

  /** References all processes with pid below `n` hold to slot `s`. */
  function Refs(procs: Procs, n: nat, s: nat): nat {
    if n == 0 then 0 else HeldBy(procs, n - 1, s) + Refs(procs, n - 1, s)
  }

  /** The reference count of every slot is the number of descriptors that refer to it,
      over all processes; occupied slots have exactly one. */
  ghost predicate FilesOk(procs: Procs, nextPid: nat, files: FileSlots, lim: Limits) {
    RefsOk(procs, nextPid, files) && SlotsOk(files, lim) && FdsOk(procs, lim)
  }

  ghost predicate RefsOk(procs: Procs, nextPid: nat, files: FileSlots) {
    forall s: nat :: Refs(procs, nextPid, s) == RefCount(files, s)
  }

  ghost predicate SlotsOk(files: FileSlots, lim: Limits) {
    && (files == [] || |files| == lim.files)
    && (forall s | 0 <= s < |files| && files[s].Some? :: FileOk(files[s].value, lim))
  }

  /** Tables have their fixed size, and a zombie holds no descriptor. */
  ghost predicate FdsOk(procs: Procs, lim: Limits) {
    forall p | p in procs ::
      && |procs[p].fds| == lim.fds
      && (procs[p].state.Zombie? ==> forall fd | 0 <= fd < |procs[p].fds| :: procs[p].fds[fd].None?)
  }

  ghost predicate FileOk(f: OpenFile, lim: Limits) {
    && f.refCount == 1
    && (f.kind.EmbeddedFile? ==>
          f.access == ReadOnly && f.kind.id < |lim.embedded| && f.offset <= |lim.embedded[f.kind.id].bytes|)
  }

  /** Every process has an address space of its own. */
  ghost predicate SpacesOk(procs: Procs, spaces: map<nat, UserSpace>, unclaimed: set<nat>, kernelRoot: nat) {
    && kernelRoot !in spaces
    && unclaimed <= spaces.Keys
    && (forall p | p in procs :: procs[p].root in spaces && procs[p].root !in unclaimed)
    && (forall p, q | p in procs && q in procs && p != q :: procs[p].root != procs[q].root)
  }

  /** Heap bookkeeping and mapped pages agree. */
  ghost predicate HeapsOk(procs: Procs, spaces: map<nat, UserSpace>) {
    forall p | p in procs ::
      HeapOk(procs[p].heap) && procs[p].root in spaces && HeapMapped(spaces[procs[p].root], procs[p].heap)
  }

  /** Everything that does not depend on which task is running. While a process is
      exiting it is the exception: its parent may still be waiting. */
  ghost predicate Core(k: Kernel, except: Option<nat>) {
    && LimitsOk(k.lim)
    && |k.tasks| <= k.lim.tasks
    && PidsOk(k.tasks, k.procs, k.nextPid, k.lim)
    && FamilyOk(k.procs) && OrphansAlive(k.procs, except)
    && WaitsOk(k.tasks, k.procs, k.spaces, except)
    && FilesOk(k.procs, k.nextPid, k.files, k.lim)
    && SpacesOk(k.procs, k.spaces, k.unclaimed, k.lim.kernelRoot)
    && HeapsOk(k.procs, k.spaces)
    && (k.cachedRoot.Some? ==> k.cachedRoot.value == k.cr3)
  }

  ghost predicate NoneRunning(tasks: seq<Task>) {
    forall i | 0 <= i < |tasks| :: tasks[i].state != Running
  }

  /** A task is running exactly when it is `current`; the hardware runs on the current
      task's own level-4 table, or on the kernel's when there is none. */
  ghost predicate CurrentOk(k: Kernel) {
    && (k.current.Some? ==> k.current.value < |k.tasks|)
    && (forall i | 0 <= i < |k.tasks| :: k.tasks[i].state == Running <==> k.current == Some(i))
    && k.cr3 == (if k.current.Some? then RootOf(k, k.current.value) else k.lim.kernelRoot)
    && (k.current.Some? ==> k.cachedRoot == Some(k.cr3))
  }

  ghost predicate Inv(k: Kernel) {
    Core(k, None) && CurrentOk(k)
  }

  lemma InitialInv(lim: Limits)
    requires LimitsOk(lim)
    ensures Inv(InitialKernel(lim))
  {
    forall s: nat ensures Refs(map[], 1, s) == RefCount([], s) {
      assert Refs(map[], 1, s) == HeldBy(map[], 0, s) + Refs(map[], 0, s);
    }
  }

  lemma CurrentFits(k: Kernel)
    requires Inv(k)
    ensures k.current.Some? ==> HasCurrent(k)
  {
    hide Core;
  }

  lemma ReadyIsNotCurrent(k: Kernel, w: nat)
    requires Inv(k) && w < |k.tasks| && k.tasks[w].state == Ready
    ensures k.current != Some(w)
  {
    hide Core;
  }

  // ----- scanning for a ready task -----

  lemma ProductAtLeast(q: nat, n: nat)
    requires q >= 2
    ensures q * n >= 2 * n
  {
    assert q * n == 2 * n + (q - 2) * n;
  }

  lemma SmallQuotient(q: nat, r: nat, n: nat)
    requires r < n && q * n + r < 2 * n
    ensures q == if q * n + r < n then 0 else 1
  {
    if q >= 2 {
      ProductAtLeast(q, n);
    }
  }

  lemma AroundExact(start: nat, offset: nat, n: nat)
    requires start < n && offset <= n
    ensures Around(start, offset, n) == if start + offset < n then start + offset else start + offset - n
  {
    var x := start + offset;
    var q := x / n;
    assert x == q * n + x % n;
    SmallQuotient(q, x % n, n);
    assert q * n == if x < n then 0 else n;
  }

  /** How far task `i` is after `start`, going round `n` tasks: 1 to `n`. */
  function Distance(start: nat, i: nat, n: nat): nat
    requires start < n && i < n
  {
    if i > start then i - start else i + n - start
  }

  /** The scan from `offset` finds the ready task at the smallest distance. */
  lemma {:induction false} NextReadyExact(tasks: seq<Task>, start: nat, offset: nat)
    requires start < |tasks| && 1 <= offset <= |tasks|
    ensures
      var r := NextReadyFrom(tasks, start, offset);
      && (r.Some? ==>
            && r.value < |tasks| && tasks[r.value].state == Ready
            && offset <= Distance(start, r.value, |tasks|)
            && forall i | 0 <= i < |tasks| && offset <= Distance(start, i, |tasks|) < Distance(start, r.value, |tasks|) ::
                 tasks[i].state != Ready)
      && (r.None? ==> forall i | 0 <= i < |tasks| && offset <= Distance(start, i, |tasks|) :: tasks[i].state != Ready)
    decreases |tasks| - offset
  {
    hide Around;
    var here := Around(start, offset, |tasks|);
    AroundExact(start, offset, |tasks|);
    assert Distance(start, here, |tasks|) == offset;
    if tasks[here].state != Ready && offset < |tasks| {
      NextReadyExact(tasks, start, offset + 1);
      forall i | 0 <= i < |tasks| && Distance(start, i, |tasks|) == offset ensures i == here {
      }
    }
  }

  /** `next_ready_after` finds the nearest ready task, if there is any. */
  lemma NextReadyFinds(tasks: seq<Task>, start: nat)
    requires start < |tasks|
    ensures
      var r := NextReady(tasks, start);
      && (r.Some? ==>
            && r.value < |tasks| && tasks[r.value].state == Ready
            && forall i | 0 <= i < |tasks| && tasks[i].state == Ready ::
                 Distance(start, r.value, |tasks|) <= Distance(start, i, |tasks|))
      && (r.None? <==> forall i | 0 <= i < |tasks| :: tasks[i].state != Ready)
  {
    NextReadyExact(tasks, start, 1);
  }

  lemma {:induction false} FirstReadyFinds(tasks: seq<Task>)
    ensures
      var r := FirstReady(tasks);
      && (r.Some? ==> r.value < |tasks| && tasks[r.value].state == Ready
                      && forall i | 0 <= i < r.value :: tasks[i].state != Ready)
      && (r.None? <==> forall i | 0 <= i < |tasks| :: tasks[i].state != Ready)
  {
    if tasks != [] {
      var init := tasks[..|tasks| - 1];
      FirstReadyFinds(init);
      assert forall i | 0 <= i < |init| :: init[i] == tasks[i];
    }
  }
}

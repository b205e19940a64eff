/** Zombies over whole runs: how long they stay, which of them can still be reaped, and
    how a process comes to have a zombie as its parent. */
module Zombies {
  import opened Base
  import opened UserSpaces
  import opened UserLayout
  import opened BuiltinPrograms
  import opened Files
  import opened Processes
  import opened Kernel
  import opened Invariants
  import opened Preservation
  import opened WaitSteps
  import opened ExitSteps
  import opened Runs
  import opened Transitions
  import opened Progress
  import opened Reporting
  import opened OpenFiles
  import opened Families
  import SpawnSteps

  /** Process `c` has a parent that has not ended. */
  predicate ParentLives(procs: Procs, c: nat) {
    && c in procs && procs[c].parent.Some? && procs[c].parent.value in procs
    && procs[procs[c].parent.value].state.Alive?
  }

  lemma TaskProcessAlive(k: Kernel, i: nat)
    requires Inv(k) && i < |k.tasks| && !k.tasks[i].Terminal() && k.tasks[i].pid.Some?
    ensures k.tasks[i].pid.value in k.procs && k.procs[k.tasks[i].pid.value].state.Alive?
    ensures k.procs[k.tasks[i].pid.value].mainTask == i
  {
    hide FamilyOk, OrphansAlive, WaitsOk, FilesOk, SpacesOk, HeapsOk, CurrentOk;
    assert MainTaskOk(k.tasks, k.procs[k.tasks[i].pid.value], k.tasks[i].pid.value, k.nextPid);
  }

  /** Only a living parent is ever told of a child's end. */
  lemma ReportedToLiving(k: Kernel, e: Event)
    requires Inv(k) && Reported(k, e).Some?
    ensures ParentLives(k.procs, Reported(k, e).value)
  {
    hide Inv, FindWaiter, RangeOk, ListsDistinct, ParentsSound;
    FamilyPart(k);
    if e.Wait? {
      LiveProcess(k);
    } else {
      var w := FindWaiter(k.tasks, EndedPid(k, e).value).value;
      WaiterFacts(k, w);
      TaskProcessAlive(k, w);
    }
  }

  // ----- zombies stay -----

  /** The same zombie: only children spawned under it since may have been added. */
  predicate SameZombie(p: Process, p': Process) {
    p.children <= p'.children && p' == p.(children := p'.children)
  }

  /** A zombie that is not reported and whose parent does not end stays what it is. */
  lemma ZombieStep(k: Kernel, e: Event, k': Kernel, p: nat)
    requires Inv(k) && Next(k, e, k') && IsZombie(k.procs, p) && Reported(k, e) != Some(p)
    requires EndedPid(k, e).Some? ==> k.procs[p].parent != EndedPid(k, e)
    ensures p in k'.procs && SameZombie(k.procs[p], k'.procs[p])
  {
    hide Inv, Next, Reported, ProcStep;
    StepProcs(k, e, k');
    if CurrentPid(k).Some? {
      LiveProcess(k);
    }
    assert !Leaves(k, e, p);
    ZombieIsNotTold(k, e, p);
    ZombieProcStep(k, e, p, k'.procs[p], k'.nextPid);
  }

  lemma ZombieProcStep(k: Kernel, e: Event, p: nat, after: Process, nextPid': nat)
    requires IsZombie(k.procs, p) && ProcStep(k, e, p, after, nextPid')
    requires EndedPid(k, e) != Some(p) && CurrentPid(k) != Some(p)
    requires EndedPid(k, e).Some? ==> k.procs[p].parent != EndedPid(k, e)
    requires Reported(k, e).Some? ==> Reported(k, e).value !in k.procs[p].children
    ensures SameZombie(k.procs[p], after)
  {
    hide Reported;
  }

  lemma ZombieIsNotTold(k: Kernel, e: Event, p: nat)
    requires Inv(k) && IsZombie(k.procs, p)
    ensures Reported(k, e).Some? ==> Reported(k, e).value !in k.procs[p].children
  {
    hide Inv, Reported, ListsDistinct, ParentsSound;
    FamilyPart(k);
    if Reported(k, e).Some? {
      ReportedToLiving(k, e);
    }
  }

  /** A zombie stays, unchanged but for children spawned under it, until its parent is
      told of it or ends. */
  lemma {:induction false} ZombieStays(ks: seq<Kernel>, es: seq<Event>, a: nat, b: nat, p: nat)
    requires IsRun(ks, es) && Inv(ks[0]) && a <= b < |ks| && IsZombie(ks[a].procs, p)
    requires forall i | a <= i < b :: Reported(ks[i], es[i]) != Some(p)
    requires forall i | a <= i < b && EndedPid(ks[i], es[i]).Some? :: EndedPid(ks[i], es[i]) != ks[a].procs[p].parent
    ensures p in ks[b].procs && SameZombie(ks[a].procs[p], ks[b].procs[p])
    decreases b - a
  {
    hide Inv, Next, Reported;
    if a < b {
      ZombieStays(ks, es, a, b - 1, p);
      RunKeepsInv(ks, es, b - 1);
      assert Next(ks[b - 1], es[b - 1], ks[b - 1 + 1]);
      ZombieStep(ks[b - 1], es[b - 1], ks[b], p);
    }
  }

  // ----- which zombies can still be reaped -----

  /** A zombie nobody will ever be told of: it has no parent, or its parent is gone or a
      zombie itself. */
  predicate Stranded(procs: Procs, c: nat) {
    IsZombie(procs, c) && !ParentLives(procs, c)
  }

  /** Nobody is told of a stranded zombie, and no process that ends is its parent. */
  lemma StrandedUntold(k: Kernel, e: Event, c: nat)
    requires Inv(k) && Stranded(k.procs, c)
    ensures Reported(k, e) != Some(c) && (EndedPid(k, e).Some? ==> k.procs[c].parent != EndedPid(k, e))
    ensures k.procs[c].parent.Some? ==> k.procs[c].parent.value < k.nextPid
  {
    hide Inv, Reported, ListsDistinct, ListsSound;
    if Reported(k, e).Some? {
      ReportedToLiving(k, e);
    }
    if EndedPid(k, e).Some? {
      LiveProcess(k);
    }
    SpawnSteps.PidsBelow(k);
    FamilyPart(k);
  }

  /** A process that is gone or a zombie never becomes alive. */
  lemma DeadStaysDead(k: Kernel, e: Event, k': Kernel, q: nat)
    requires Inv(k) && Next(k, e, k') && q < k.nextPid && (q in k.procs ==> k.procs[q].state.Zombie?)
    ensures q in k'.procs ==> k'.procs[q].state.Zombie?
  {
    hide Inv, Next, Leaves, FdsStep, HeapStep, ChildrenAfter;
    StepProcs(k, e, k');
  }

  lemma StrandedStep(k: Kernel, e: Event, k': Kernel, c: nat)
    requires Inv(k) && Next(k, e, k') && Stranded(k.procs, c)
    ensures Stranded(k'.procs, c) && SameZombie(k.procs[c], k'.procs[c]) && Reported(k, e) != Some(c)
  {
    hide Inv, Next, Reported;
    StrandedUntold(k, e, c);
    ZombieStep(k, e, k', c);
    if k.procs[c].parent.Some? {
      DeadStaysDead(k, e, k', k.procs[c].parent.value);
    }
  }

  /** Once stranded a zombie stays in the table, and nobody is told of it, to the end of
      the run. */
  lemma {:induction false} StrandedForever(ks: seq<Kernel>, es: seq<Event>, a: nat, b: nat, c: nat)
    requires IsRun(ks, es) && Inv(ks[0]) && a <= b < |ks| && Stranded(ks[a].procs, c)
    ensures Stranded(ks[b].procs, c) && SameZombie(ks[a].procs[c], ks[b].procs[c])
    ensures forall i | a <= i < b :: Reported(ks[i], es[i]) != Some(c)
    decreases b - a
  {
    hide Inv, Next, Reported, ParentLives;
    if a < b {
      StrandedForever(ks, es, a, b - 1, c);
      RunKeepsInv(ks, es, b - 1);
      assert Next(ks[b - 1], es[b - 1], ks[b - 1 + 1]);
      StrandedStep(ks[b - 1], es[b - 1], ks[b], c);
    }
  }

  /** A parent that runs can reap a zombie child with one call. */
  lemma RunningParentReaps(k: Kernel, c: nat)
    requires Inv(k) && LimitsOk(k.lim) && IsZombie(k.procs, c)
    requires k.procs[c].parent.Some? && CurrentPid(k) == k.procs[c].parent
    ensures
      var e := Wait(c, 0, WNOHANG);
      && Enabled(k, e) && Reported(k, e) == Some(c) && c !in Step(k, e).procs
      && k.current.value < |Step(k, e).tasks| && Step(k, e).tasks[k.current.value].rax == c
  {
    hide Inv, RangeOk, WaitPid, StatusStored;
    var e := Wait(c, 0, WNOHANG);
    LiveProcess(k);
    SpawnSteps.PidsBelow(k);
    FamilyPart(k);
    assert c in k.procs[CurrentPid(k).value].children by { assert ParentsSound(k.procs); }
    assert Reported(k, e) == Some(c);
    PollReports(k, e, Step(k, e));
  }

  /** A parent's own end removes its zombie children. */
  lemma EndingParentReaps(k: Kernel, e: Event, k': Kernel, c: nat)
    requires Inv(k) && Next(k, e, k') && IsZombie(k.procs, c)
    requires EndedPid(k, e).Some? && k.procs[c].parent == EndedPid(k, e)
    ensures c !in k'.procs
  {
    hide Inv, Next, Reported;
    StepProcs(k, e, k');
    assert Leaves(k, e, c);
  }

  function Unfinished(tasks: seq<Task>): set<nat> {
    set i: nat | i < |tasks| && !tasks[i].Terminal()
  }

  lemma OneEnds(tasks: seq<Task>, mid: seq<Task>, tasks': seq<Task>, i: nat, ended: Option<nat>)
    requires |mid| == |tasks'| == |tasks| && i < |tasks| && tasks[i].state == Running && mid[i].Terminal()
    requires forall j | 0 <= j < |tasks| && j != i :: tasks[j].state != Running && mid[j].state != Running
    requires TasksStep(tasks, mid, ended) && TasksStep(mid, tasks', None)
    ensures Unfinished(tasks') == Unfinished(tasks) - {i} && i in Unfinished(tasks)
  {
    forall j: nat | j < |tasks| ensures tasks'[j].Terminal() <==> tasks[j].Terminal() || j == i {
      assert TaskStep(tasks[j], mid[j], ended) && TaskStep(mid[j], tasks'[j], None);
    }
  }

  /** An exit ends the current task and no other. */
  lemma ExitEndsOne(k: Kernel)
    requires Inv(k) && HasCurrent(k)
    ensures Unfinished(Finish(k, Some(0), None).tasks) == Unfinished(k.tasks) - {k.current.value}
    ensures k.current.value in Unfinished(k.tasks)
  {
    hide Core, AfterFinish, PickNext, TasksStep, Unfinished;
    var i := k.current.value;
    var ended := AfterFinish(k, Some(0), None);
    AfterFinishStep(k, Some(0), None);
    AfterFinishCore(k, Some(0), None);
    SameTasksStep(ended.tasks);
    PickNextStep(ended.tasks, ended, i, None);
    OneEnds(k.tasks, ended.tasks, PickNext(ended, i).tasks, i, CurrentPid(k));
  }

  /** The task whose process is the parent of `c`, when that parent lives. */
  lemma ParentTask(k: Kernel, c: nat) returns (j: nat)
    requires Inv(k) && ParentLives(k.procs, c)
    ensures j < |k.tasks| && k.tasks[j].pid == k.procs[c].parent && !k.tasks[j].Terminal()
    ensures forall i | 0 <= i < |k.tasks| && k.tasks[i].pid == k.procs[c].parent :: i == j
  {
    hide FamilyOk, OrphansAlive, WaitsOk, FilesOk, SpacesOk, HeapsOk, CurrentOk;
    var q := k.procs[c].parent.value;
    assert MainTaskOk(k.tasks, k.procs[q], q, k.nextPid);
    j := k.procs[q].mainTask;
  }

  /** Ending another task takes neither the zombie nor its parent away. */
  lemma OtherExitKeeps(k: Kernel, e: Event, k': Kernel, c: nat)
    requires Inv(k) && Next(k, e, k') && e.Exit? && IsZombie(k.procs, c) && ParentLives(k.procs, c)
    requires CurrentPid(k) != k.procs[c].parent
    ensures IsZombie(k'.procs, c) && ParentLives(k'.procs, c)
  {
    hide Inv, Next, FindWaiter;
    if CurrentPid(k).Some? {
      LiveProcess(k);
    }
    ZombieStep(k, e, k', c);
    AliveStays(k, e, k', k.procs[c].parent.value);
  }

  lemma StartFinds(k: Kernel)
    requires Inv(k) && k.current.None? && !AllTerminal(k.tasks)
    ensures StartRunning(k).current.Some? && Unfinished(StartRunning(k).tasks) == Unfinished(k.tasks)
  {
    hide Inv, FirstReady;
    IdleMeansDone(k);
    FirstReadyFinds(k.tasks);
  }

  ghost predicate RunsTo(k: Kernel, ks: seq<Kernel>, es: seq<Event>, c: nat) {
    IsRun(ks, es) && ks[0] == k && c !in ks[|es|].procs
  }

  lemma Prepend(k: Kernel, e: Event, k': Kernel, ks: seq<Kernel>, es: seq<Event>, c: nat)
    requires Next(k, e, k') && RunsTo(k', ks, es, c)
    ensures RunsTo(k, [k] + ks, [e] + es, c)
  {
    hide Next;
    var ks', es' := [k] + ks, [e] + es;
    forall i | 0 <= i < |es'| ensures Next(ks'[i], es'[i], ks'[i + 1]) {
      if i > 0 {
        assert ks'[i] == ks[i - 1] && es'[i] == es[i - 1] && ks'[i + 1] == ks[i - 1 + 1];
      }
    }
  }

  /** As long as its parent lives a zombie can still be reaped: a run is built in which
      the other tasks exit until the parent runs, and then it asks. */
  lemma CanStillBeReaped(k: Kernel, c: nat) returns (ks: seq<Kernel>, es: seq<Event>)
    requires Inv(k) && LimitsOk(k.lim) && IsZombie(k.procs, c) && ParentLives(k.procs, c)
    ensures RunsTo(k, ks, es, c)
    decreases Unfinished(k.tasks), k.current.None?
  {
    hide Inv, ParentLives, RunsTo, Enabled, Step, Unfinished;
    var j := ParentTask(k, c);
    var e := if k.current == Some(j) then Wait(c, 0, WNOHANG) else if k.current.None? then Run else Exit(0);
    NextEvent(k, c, j, e);
    var k' := Step(k, e);
    StepKeepsInv(k, e);
    if k.current == Some(j) {
      ks, es := [k, k'], [e];
      OneStepRun(k, e, k', c);
    } else {
      var ks1, es1 := CanStillBeReaped(k', c);
      Prepend(k, e, k', ks1, es1, c);
      ks, es := [k] + ks1, [e] + es1;
    }
  }

  lemma OneStepRun(k: Kernel, e: Event, k': Kernel, c: nat)
    requires Next(k, e, k') && c !in k'.procs
    ensures RunsTo(k, [k, k'], [e], c)
  {
    hide Next;
    var ks := [k, k'];
    assert Next(ks[0], e, ks[0 + 1]);
  }

  /** What the next event of that run does. */
  lemma NextEvent(k: Kernel, c: nat, j: nat, e: Event)
    requires Inv(k) && LimitsOk(k.lim) && IsZombie(k.procs, c) && ParentLives(k.procs, c)
    requires j < |k.tasks| && k.tasks[j].pid == k.procs[c].parent && !k.tasks[j].Terminal()
    requires forall i | 0 <= i < |k.tasks| && k.tasks[i].pid == k.procs[c].parent :: i == j
    requires e == if k.current == Some(j) then Wait(c, 0, WNOHANG) else if k.current.None? then Run else Exit(0)
    ensures Enabled(k, e) && Step(k, e).lim == k.lim
    ensures
      var k' := Step(k, e);
      if k.current == Some(j) then c !in k'.procs
      else
        && IsZombie(k'.procs, c) && ParentLives(k'.procs, c)
        && (if k.current.None? then Unfinished(k'.tasks) == Unfinished(k.tasks) && k'.current.Some?
            else k.current.value in Unfinished(k.tasks) && Unfinished(k'.tasks) == Unfinished(k.tasks) - {k.current.value})
  {
    hide Inv, Unfinished, WaitPid, Finish, StartRunning, Reported;
    if k.current == Some(j) {
      RunningParentReaps(k, c);
    } else if k.current.None? {
      assert !AllTerminal(k.tasks);
      StartFinds(k);
    } else {
      CurrentFits(k);
      ExitEndsOne(k);
      OtherExitKeeps(k, e, Step(k, e), c);
    }
  }

  /** Exactly when a zombie can be reaped: in some continuation of the run it leaves the
      table if and only if its parent has not ended. */
  lemma ReapableExactly(ks: seq<Kernel>, es: seq<Event>, c: nat)
    requires FromBoot(ks, es) && IsZombie(ks[|es|].procs, c)
    ensures ParentLives(ks[|es|].procs, c) <==> exists ks': seq<Kernel>, es': seq<Event> :: RunsTo(ks[|es|], ks', es', c)
  {
    hide Inv, Next, ParentLives;
    var k := ks[|es|];
    BootRunInv(ks, es, |es|);
    if ParentLives(k.procs, c) {
      LimitsPart(k);
      var ks', es' := CanStillBeReaped(k, c);
      assert RunsTo(k, ks', es', c);
    } else {
      forall ks': seq<Kernel>, es': seq<Event> ensures !RunsTo(k, ks', es', c) {
        if IsRun(ks', es') && ks'[0] == k {
          NoRunReaps(ks', es', c);
        }
      }
    }
  }

  lemma NoRunReaps(ks: seq<Kernel>, es: seq<Event>, c: nat)
    requires IsRun(ks, es) && Inv(ks[0]) && Stranded(ks[0].procs, c)
    ensures c in ks[|es|].procs
  {
    hide Inv, Next, ParentLives, Reported;
    StrandedForever(ks, es, 0, |es|, c);
  }

  lemma LimitsPart(k: Kernel)
    requires Inv(k)
    ensures LimitsOk(k.lim)
  {
    hide PidsOk, FamilyOk, OrphansAlive, WaitsOk, FilesOk, SpacesOk, HeapsOk, CurrentOk;
  }

  // ----- a zombie as parent -----

  /** With nothing open there is room for the three standard descriptors. */
  lemma RoomForStdio(files: FileSlots, maxFiles: nat, maxFds: nat)
    requires maxFds >= 3 && maxFiles >= 3 && (files == [] || |files| == maxFiles)
    requires forall s | 0 <= s < |files| :: files[s].None?
    ensures NewWithStdio(files, maxFiles, maxFds).1.Ok?
  {
    var (files1, _) := AllocFile(files, maxFiles, NullInput, ReadOnly);
    assert files1 != [] && files1[1].None? && files1[2].None?;
    var (files2, _) := AllocFile(files1, maxFiles, ConsoleStdout, WriteOnly);
    assert files2 != [] && files2[2].None?;
    hide AllocFile;
  }

  /** A spawn with nothing open and room in the tables succeeds. */
  lemma SpawnSucceeds(k: Kernel, parent: Option<nat>, init: UserInit)
    requires LimitsOk(k.lim) && k.lim.files >= 3 && |k.tasks| < k.lim.tasks
    requires CanCreate(k.procs, k.nextPid, k.lim.processes, parent).None?
    requires (k.files == [] || |k.files| == k.lim.files) && forall s | 0 <= s < |k.files| :: k.files[s].None?
    ensures
      var k' := SpawnProcess(k, parent, init);
      && k'.nextPid == k.nextPid + 1 && k'.current == k.current
      && k'.tasks == k.tasks + [Task(Some(k.nextPid), Ready, 0, init.arg0, None, None)]
      && k.nextPid in k'.procs && k'.procs[k.nextPid].parent == parent && !k'.procs[k.nextPid].orphaned
      && k'.procs.Keys == k.procs.Keys + {k.nextPid}
      && (forall p | p in k.procs && p != k.nextPid :: k'.procs[p].state == k.procs[p].state)
  {
    hide NewWithStdio, CanCreate, Create;
    RoomForStdio(k.files, k.lim.files, k.lim.fds);
    var fds := NewWithStdio(k.files, k.lim.files, k.lim.fds).1.value;
    CreateEntries(k.procs, k.nextPid, parent, init.root, init.heap, fds, |k.tasks|);
  }

  lemma CreateEntries(procs: Procs, pid: nat, parent: Option<nat>, root: nat, heap: UserHeap, fds: FdTable, task: nat)
    ensures
      var procs' := Create(procs, pid, parent, root, heap, fds, task);
      && procs'.Keys == procs.Keys + {pid} && procs'[pid].parent == parent && !procs'[pid].orphaned
      && (forall p | p in procs && p != pid :: procs'[p].state == procs[p].state)
  {
  }

  /** One root process, running, and nothing else. */
  ghost predicate OneRuns(k: Kernel) {
    && k.current == Some(0) && |k.tasks| == 1 && k.tasks[0].pid == Some(1) && k.tasks[0].state == Running
    && k.procs.Keys == {1} && k.procs[1].parent.None? && !k.procs[1].orphaned && k.nextPid == 2
  }

  /** The first three events: a root process is spawned and starts. */
  lemma FirstRuns(lim: Limits, init: UserInit, view: UserSpace, k1: Kernel, k2: Kernel, k3: Kernel)
    requires LimitsOk(lim) && lim.files >= 3
    requires k1 == WithSpace(InitialKernel(lim), init.root, view)
    requires k2 == SpawnProcess(k1, None, init) && k3 == StartRunning(k2)
    ensures OneRuns(k3) && k2.current.None? && k3.lim == lim && k3.spaces.Keys == {init.root}
  {
    hide NewWithStdio, SpawnProcess, StartRunning;
    SpawnSucceeds(k1, None, init);
    OnlyTaskStarts(k2);
  }

  lemma OnlyTaskStarts(k: Kernel)
    requires |k.tasks| == 1 && k.tasks[0].state == Ready
    ensures
      var k' := StartRunning(k);
      && SameTables(k, k') && k'.current == Some(0) && |k'.tasks| == 1
      && k'.tasks[0] == k.tasks[0].(state := Running)
  {
    hide FirstReady;
    FirstReadyFinds(k.tasks);
    assert k.tasks[0].state == Ready;
  }

  lemma NobodyWaits(k: Kernel)
    requires OneRuns(k)
    ensures Reported(k, Exit(0)).None? && EndedPid(k, Exit(0)) == Some(1) && FindWaiter(k.tasks, 1).None?
  {
    assert FindWaiter(k.tasks, 1).None?;
  }

  /** It exits: no parent waits and it is no orphan, so it stays as a zombie, stranded. */
  lemma RootStays(k: Kernel, e: Event, k': Kernel)
    requires Inv(k) && Next(k, e, k') && e == Exit(0) && OneRuns(k)
    ensures Stranded(k'.procs, 1) && k'.procs.Keys == {1} && k'.nextPid == 2 && |k'.tasks| == 1
    ensures k'.spaces == k.spaces
  {
    hide Inv, FindWaiter, Reported, StatusWritten, Finish;
    assert |k'.tasks| == |k.tasks|;
    hide Next, FdsStep, HeapStep, ChildrenAfter;
    NobodyWaits(k);
    StepProcs(k, e, k');
    assert !Leaves(k, e, 1);
    EndSpaces(k, e, k');
  }

  /** When all processes are zombies nothing is open. */
  lemma NothingOpen(k: Kernel)
    requires Inv(k) && forall p | p in k.procs :: k.procs[p].state.Zombie?
    ensures (k.files == [] || |k.files| == k.lim.files) && forall s | 0 <= s < |k.files| :: k.files[s].None?
  {
    hide Inv;
    FilesPart(k);
    forall s | 0 <= s < |k.files| ensures k.files[s].None? {
      SlotHasHolder(k, s);
      forall p: nat, fd: nat ensures !Holds(k, p, fd, s) {
      }
    }
  }

  /** A child spawned under the zombie. */
  lemma ChildOfZombie(k: Kernel, init: UserInit)
    requires LimitsOk(k.lim) && k.lim.files >= 3 && k.lim.tasks >= 2 && k.lim.processes >= 2
    requires IsZombie(k.procs, 1) && k.procs.Keys == {1} && k.nextPid == 2 && |k.tasks| == 1
    requires (k.files == [] || |k.files| == k.lim.files) && forall s | 0 <= s < |k.files| :: k.files[s].None?
    ensures !ParentsAlive(SpawnProcess(k, Some(1), init).procs)
  {
    hide SpawnProcess;
    assert |k.procs| == 1;
    SpawnSucceeds(k, Some(1), init);
    var procs' := SpawnProcess(k, Some(1), init).procs;
    assert 2 in procs' && procs'[2].parent == Some(1) && procs'[1].state.Zombie?;
  }

  lemma ChildSpawns(k: Kernel, init: UserInit, view: UserSpace) returns (k1: Kernel, k2: Kernel)
    requires Inv(k) && LimitsOk(k.lim) && k.lim.files >= 3 && k.lim.tasks >= 2 && k.lim.processes >= 2
    requires IsZombie(k.procs, 1) && k.procs.Keys == {1} && k.nextPid == 2 && |k.tasks| == 1
    requires init.root !in k.spaces && init.root != k.lim.kernelRoot && FreshLayout(init.heap, view)
    ensures Next(k, MakeSpace(init.root, view), k1) && Next(k1, Spawn(Some(1), init), k2) && !ParentsAlive(k2.procs)
  {
    hide SpawnProcess, FreshLayout, ParentsAlive, Inv;
    NothingOpen(k);
    k1 := Step(k, MakeSpace(init.root, view));
    k2 := Step(k1, Spawn(Some(1), init));
    ChildOfZombie(k1, init);
  }

  /** A root process is spawned, runs and exits. */
  lemma RootExits(lim: Limits, init: UserInit, view: UserSpace) returns (ks: seq<Kernel>, es: seq<Event>)
    requires LimitsOk(lim) && lim.files >= 3 && init.root != lim.kernelRoot && FreshLayout(init.heap, view)
    ensures FromBoot(ks, es) && ks[0].lim == lim && es == [MakeSpace(init.root, view), Spawn(None, init), Run, Exit(0)]
    ensures Stranded(ks[4].procs, 1) && ks[4].procs.Keys == {1} && ks[4].nextPid == 2 && |ks[4].tasks| == 1
    ensures ks[4].spaces.Keys == {init.root} && ks[4].lim == lim
  {
    hide SpawnProcess, StartRunning, Finish, FreshLayout, OneRuns, Inv, Stranded;
    var k0 := InitialKernel(lim);
    InitialInv(lim);
    var e0, e1 := MakeSpace(init.root, view), Spawn(None, init);
    var k1 := Step(k0, e0);
    var k2 := Step(k1, e1);
    var k3 := StartRunning(k2);
    FirstRuns(lim, init, view, k1, k2, k3);
    StepKeepsInv(k0, e0);
    StepKeepsInv(k1, e1);
    StepKeepsInv(k2, Run);
    assert HasCurrent(k3) by { OneHasCurrent(k3); }
    var k4 := Step(k3, Exit(0));
    RootStays(k3, Exit(0), k4);
    ks, es := [k0, k1, k2, k3, k4], [e0, e1, Run, Exit(0)];
  }

  /** On every kernel with room for two processes, and for every program, there is a run
      from boot that strands a zombie and then makes it a parent. */
  lemma ZombieParentReached(lim: Limits, program: UserInit, view: UserSpace) returns (ks: seq<Kernel>, es: seq<Event>)
    requires LimitsOk(lim) && lim.tasks >= 2 && lim.processes >= 2 && lim.files >= 3
    requires FreshLayout(program.heap, view)
    ensures FromBoot(ks, es) && ks[0].lim == lim && |es| == 6
    ensures Spawns(es[0], es[1], None, program, view) && es[2..4] == [Run, Exit(0)]
    ensures Spawns(es[4], es[5], Some(1), program, view)
    ensures Stranded(ks[4].procs, 1) && !ParentsAlive(ks[6].procs)
  {
    hide FreshLayout, ParentsAlive, Inv, Stranded, FromBoot, Next;
    var first, second := program.(root := lim.kernelRoot + 1), program.(root := lim.kernelRoot + 2);
    ks, es := RootExits(lim, first, view);
    BootIsRun(ks, es);
    BootRunInv(ks, es, 4);
    StrandedIsZombie(ks[4].procs, 1);
    var k5, k6 := ChildSpawns(ks[4], second, view);
    var e4, e5 := MakeSpace(second.root, view), Spawn(Some(1), second);
    OneMoreStep(ks, es, e4, k5);
    OneMoreStep(ks + [k5], es + [e4], e5, k6);
    ks, es := ks + [k5] + [k6], es + [e4] + [e5];
  }

  /** Two events that make an address space holding `view` and spawn `program` in it. */
  predicate Spawns(e: Event, e': Event, parent: Option<nat>, program: UserInit, view: UserSpace) {
    e.MakeSpace? && e.view == view && e' == Spawn(parent, program.(root := e.newRoot))
  }

  lemma StrandedIsZombie(procs: Procs, c: nat)
    requires Stranded(procs, c)
    ensures IsZombie(procs, c)
  {
  }

  /** In particular with a program the kernel carries itself, whatever its code. */
  lemma BuiltinStranded(lim: Limits, code: seq<byte>, arg0: nat) returns (ks: seq<Kernel>, es: seq<Event>)
    requires LimitsOk(lim) && lim.tasks >= 2 && lim.processes >= 2 && lim.files >= 3 && |code| <= PAGE_SIZE
    ensures FromBoot(ks, es) && |es| == 6 && es[0].MakeSpace? && es[0].view == BuiltinView(code, None)
    ensures Stranded(ks[4].procs, 1) && !ParentsAlive(ks[6].procs)
    ensures !exists ks': seq<Kernel>, es': seq<Event> :: RunsTo(ks[4], ks', es', 1)
  {
    hide Next, Stranded, ParentsAlive, FreshLayout, BuiltinView;
    BuiltinIsFresh(code, None);
    var program := UserInit(0, USER_CODE_BASE, USER_STACK_TOP, DefaultBuiltinHeap().value, arg0);
    ks, es := ZombieParentReached(lim, program, BuiltinView(code, None));
    NeverReaped(ks, es, 4, 1);
  }

  lemma NeverReaped(ks: seq<Kernel>, es: seq<Event>, n: nat, c: nat)
    requires FromBoot(ks, es) && n < |ks| && Stranded(ks[n].procs, c)
    ensures !exists ks': seq<Kernel>, es': seq<Event> :: RunsTo(ks[n], ks', es', c)
  {
    hide FromBoot, Stranded, Inv, IsRun;
    BootRunInv(ks, es, n);
    forall ks': seq<Kernel>, es': seq<Event> | RunsTo(ks[n], ks', es', c) ensures false {
      NoRunReaps(ks', es', c);
    }
  }

  lemma OneHasCurrent(k: Kernel)
    requires OneRuns(k)
    ensures HasCurrent(k)
  {
  }
}

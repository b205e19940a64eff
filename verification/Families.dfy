/** Tasks, processes and parents in every reachable state. */
module Families {
  import opened Base
  import opened Files
  import opened Processes
  import opened Kernel
  import opened Invariants
  import opened Runs
  import opened Transitions
  import SpawnSteps

  /** Task and process tables agree in every reachable state: the running task is the
      current one and the hardware uses its tables; a live process and its unfinished
      main task come in pairs. So no lookup the scheduler relies on can fail. */
  lemma TasksAndProcessesAgree(ks: seq<Kernel>, es: seq<Event>, n: nat)
    requires FromBoot(ks, es) && n < |ks|
    ensures
      var k := ks[n];
      && (forall i | 0 <= i < |k.tasks| :: k.tasks[i].state == Running <==> k.current == Some(i))
      && (forall i | 0 <= i < |k.tasks| && k.tasks[i].pid.Some? ::
            !k.tasks[i].Terminal() <==>
              && k.tasks[i].pid.value in k.procs
              && k.procs[k.tasks[i].pid.value].state.Alive? && k.procs[k.tasks[i].pid.value].mainTask == i)
      && (forall p | p in k.procs ::
            k.procs[p].mainTask < |k.tasks| && k.tasks[k.procs[p].mainTask].pid == Some(p))
      && (k.current.Some? ==> k.current.value < |k.tasks| && k.cr3 == RootOf(k, k.current.value) && k.cachedRoot == Some(k.cr3))
      && (k.current.None? ==> k.cr3 == k.lim.kernelRoot)
  {
    BootRunInv(ks, es, n);
    hide FromBoot, FamilyOk, OrphansAlive, WaitsOk, FilesOk, SpacesOk, HeapsOk;
    var k := ks[n];
    forall p | p in k.procs ensures k.procs[p].mainTask < |k.tasks| && k.tasks[k.procs[p].mainTask].pid == Some(p) {
      assert MainTaskOk(k.tasks, k.procs[p], p, k.nextPid);
    }
    forall i | 0 <= i < |k.tasks| && k.tasks[i].pid.Some? && k.tasks[i].pid.value in k.procs
      ensures MainTaskOk(k.tasks, k.procs[k.tasks[i].pid.value], k.tasks[i].pid.value, k.nextPid)
    {
    }
  }

  /** Child lists hold no pid twice and exactly the processes in the table that name the
      owner as parent, all of them younger; no child is in two lists; an orphan is in
      none and is alive. */
  ghost predicate IsFamilyTree(procs: Procs) {
    && (forall p | p in procs :: NoDuplicates(procs[p].children))
    && (forall p: nat, c: nat | p in procs :: c in procs[p].children <==> c in procs && procs[c].parent == Some(p))
    && (forall p: nat, c: nat | p in procs && c in procs[p].children :: p < c)
    && (forall p: nat, c: nat | p in procs && c in procs[p].children :: !procs[c].orphaned)
    && (forall p: nat, q: nat, c: nat | p in procs && q in procs && c in procs[p].children && c in procs[q].children :: p == q)
    && (forall c | c in procs && procs[c].orphaned :: procs[c].state.Alive? && procs[c].parent.None?)
  }

  lemma ListedChild(procs: Procs, p: nat, c: nat)
    requires ListsSound(procs) && ParentsSound(procs) && p in procs
    ensures c in procs[p].children <==> c in procs && procs[c].parent == Some(p)
    ensures c in procs[p].children ==> p < c && !procs[c].orphaned
  {
  }

  lemma ListsAndOrphans(procs: Procs)
    requires FamilyOk(procs) && OrphansAlive(procs, None)
    ensures forall p | p in procs :: NoDuplicates(procs[p].children)
    ensures forall c | c in procs && procs[c].orphaned :: procs[c].state.Alive? && procs[c].parent.None?
  {
    hide NoDuplicates;
  }

  lemma FamilyIsTree(procs: Procs)
    requires FamilyOk(procs) && OrphansAlive(procs, None)
    ensures IsFamilyTree(procs)
  {
    hide NoDuplicates, ListsDistinct, ListsSound, ParentsSound, OrphansAlive;
    ListsAndOrphans(procs);
    forall p: nat, c: nat | p in procs
      ensures c in procs[p].children <==> c in procs && procs[c].parent == Some(p)
    {
      ListedChild(procs, p, c);
    }
    forall p: nat, c: nat | p in procs && c in procs[p].children ensures p < c {
      ListedChild(procs, p, c);
    }
    forall p: nat, c: nat | p in procs && c in procs[p].children ensures !procs[c].orphaned {
      ListedChild(procs, p, c);
    }
    forall p: nat, q: nat, c: nat | p in procs && q in procs && c in procs[p].children && c in procs[q].children ensures p == q {
      ListedChild(procs, p, c);
      ListedChild(procs, q, c);
    }
  }

  /** The process table is such a tree in every reachable state. */
  lemma FamilyTree(ks: seq<Kernel>, es: seq<Event>, n: nat)
    requires FromBoot(ks, es) && n < |ks|
    ensures IsFamilyTree(ks[n].procs)
  {
    hide PidsOk, FamilyOk, OrphansAlive, WaitsOk, FilesOk, SpacesOk, HeapsOk, CurrentOk, IsFamilyTree, Next;
    BootRunInv(ks, es, n);
    FamilyIsTree(ks[n].procs);
  }

  // ----- parents -----

  /** Every parent link leads to a live process. */
  ghost predicate ParentsAlive(procs: Procs) {
    forall c | c in procs && procs[c].parent.Some? ::
      procs[c].parent.value in procs && procs[procs[c].parent.value].state.Alive?
  }

  /** A spawn that creates a process keeps all parents alive exactly when the parent
      named, if any, is alive. */
  lemma SpawnKeepsParentsAlive(k: Kernel, e: Event, k': Kernel)
    requires Inv(k) && Next(k, e, k') && e.Spawn? && ParentsAlive(k.procs) && k'.nextPid > k.nextPid
    ensures ParentsAlive(k'.procs) <==> (e.parent.Some? ==> e.parent.value in k.procs && k.procs[e.parent.value].state.Alive?)
  {
    hide Inv, NewWithStdio;
    SpawnSteps.PidsBelow(k);
    assert k.nextPid in k'.procs && k'.procs[k.nextPid].parent == e.parent;
  }

  /** No other step lets a parent link dangle. */
  lemma OthersKeepParentsAlive(k: Kernel, e: Event, k': Kernel)
    requires Inv(k) && Next(k, e, k') && !e.Spawn? && ParentsAlive(k.procs)
    ensures ParentsAlive(k'.procs)
  {
    hide Inv, Next, Leaves, FdsStep, HeapStep, ChildrenAfter, Reported;
    StepProcs(k, e, k');
    forall c | c in k'.procs && k'.procs[c].parent.Some?
      ensures k'.procs[c].parent.value in k'.procs && k'.procs[k'.procs[c].parent.value].state.Alive?
    {
      assert c in k.procs && k.procs[c].parent == k'.procs[c].parent;
      AliveStays(k, e, k', k.procs[c].parent.value);
    }
  }
}

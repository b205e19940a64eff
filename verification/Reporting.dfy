/** Waiting for children: a waiter is always told, every end is told at most once,
    and what is told is how the child really ended. */
module Reporting {
  import opened Base
  import opened UserSpaces
  import opened Files
  import opened Processes
  import opened Kernel
  import opened Invariants
  import opened Preservation
  import opened WaitSteps
  import opened ExitSteps
  import opened Runs
  import opened Transitions
  import SpawnSteps

  /** Process memory `s` turned into `t` by storing a status where it was wanted. */
  ghost predicate StatusStored(s: UserSpace, t: UserSpace, statusPtr: Option<nat>, exit: ProcessExit) {
    match statusPtr
    case None => t == s
    case Some(ptr) => Stored(s, t, ptr, StatusBytes(exit))
  }

  lemma StatusIsStored(s: UserSpace, statusPtr: Option<nat>, exit: ProcessExit)
    requires statusPtr.Some? ==> RangeOk(s, statusPtr.value, STATUS_SIZE, Write)
    ensures StatusStored(s, StatusWritten(s, statusPtr, exit), statusPtr, exit)
  {
    if statusPtr.Some? {
      CopyOutThenIn(s, statusPtr.value, StatusBytes(exit));
    }
  }

  /** What a process's end does to memory: nothing, except that a waiting parent gets
      the status. */
  lemma EndSpaces(k: Kernel, e: Event, k': Kernel)
    requires Inv(k) && Next(k, e, k') && EndedPid(k, e).Some?
    ensures
      var waiter := FindWaiter(k.tasks, EndedPid(k, e).value);
      if waiter.None? then k'.spaces == k.spaces
      else
        var t := k.tasks[waiter.value];
        && t.pid.Some? && t.pid.value in k.procs && k.procs[t.pid.value].root in k.spaces
        && (t.state.statusPtr.Some? ==>
              RangeOk(k.spaces[k.procs[t.pid.value].root], t.state.statusPtr.value, STATUS_SIZE, Write))
        && k'.spaces == k.spaces[k.procs[t.pid.value].root :=
                                   StatusWritten(k.spaces[k.procs[t.pid.value].root], t.state.statusPtr, EndStatus(e))]
  {
    hide Core, CurrentOk, FindWaiter, MarkExited, CloseAllFiles, ReapOrphan, ReapChild, StatusWritten, RangeOk,
         NoneRunning, PickNext, ExitProcess;
    var i := k.current.value;
    var exitCode: Option<nat> := if e.Exit? then Some(e.code) else None;
    var fault: Option<UserFaultInfo> := if e.UserFault? then Some(e.info) else None;
    var t := Ended(k.tasks[i], exitCode, fault);
    OnlyCurrentEnds(k, t);
    ExitExact(k, i, t, EndStatus(e));
    SameWaiter(k.tasks, i, t, t.pid.value);
    var waiter := FindWaiter(k.tasks, t.pid.value);
    if waiter.Some? {
      WaiterFacts(k, waiter.value);
      EndedEntries(k, t.pid.value, EndStatus(e), k.tasks[waiter.value].pid.value);
    }
  }

  lemma WaiterFacts(k: Kernel, w: nat)
    requires Inv(k) && w < |k.tasks| && k.tasks[w].state.Blocked?
    ensures
      var t := k.tasks[w];
      && t.pid.Some? && t.pid.value in k.procs && k.procs[t.pid.value].root in k.spaces
      && IsChild(k.procs, t.pid.value, t.state.child)
      && (t.state.statusPtr.Some? ==>
            RangeOk(k.spaces[k.procs[t.pid.value].root], t.state.statusPtr.value, STATUS_SIZE, Write))
  {
    hide PidsOk, FamilyOk, OrphansAlive, FilesOk, HeapsOk, CurrentOk, RangeOk;
    assert WaitOk(k.tasks[w], k.procs, k.spaces);
  }

  lemma EndedEntries(k: Kernel, z: nat, exit: ProcessExit, q: nat)
    requires Inv(k) && z in k.procs
    ensures
      var procs' := MarkExited(k.procs, z, exit);
      && z in procs' && procs'[z].state == Zombie(exit)
      && (q in procs' ==> q in k.procs && procs'[q].root == k.procs[q].root)
  {
    hide Inv, MarkExited;
    FamilyPart(k);
    MarkExitedFamily(k.procs, z, exit);
    assert Lookup(MarkExited(k.procs, z, exit), z).Some?;
    assert q in MarkExited(k.procs, z, exit) ==> Lookup(MarkExited(k.procs, z, exit), q).Some?;
  }

  /** Between `k` and `k'`, task `w` learnt that its child ended: its system call
      returns the child's pid, the status is where it asked for it, nothing else in any
      address space changed, and the child is gone. */
  ghost predicate Told(k: Kernel, k': Kernel, w: nat, child: nat, statusPtr: Option<nat>, exit: ProcessExit) {
    && w < |k.tasks| && w < |k'.tasks| && k'.tasks[w].rax == child
    && child in k.procs && child !in k'.procs
    && k.tasks[w].pid.Some? && IsChild(k.procs, k.tasks[w].pid.value, child)
    && var root := k.procs[k.tasks[w].pid.value].root;
       && root in k.spaces && root in k'.spaces && k'.spaces == k.spaces[root := k'.spaces[root]]
       && StatusStored(k.spaces[root], k'.spaces[root], statusPtr, exit)
  }

  /** When a child ends, the parent blocked on it is told and can run again. No wake-up
      ends in an error. */
  lemma ChildEndWakes(k: Kernel, e: Event, k': Kernel, w: nat)
    requires Inv(k) && Next(k, e, k') && w < |k.tasks|
    requires k.tasks[w].state.Blocked? && EndedPid(k, e) == Some(k.tasks[w].state.child)
    ensures Told(k, k', w, k.tasks[w].state.child, k.tasks[w].state.statusPtr, EndStatus(e))
    ensures k'.tasks[w].state == Ready || k'.tasks[w].state == Running
    ensures Reported(k, e) == Some(k.tasks[w].state.child)
  {
    hide Inv, FindWaiter, RangeOk, Next, StatusStored, StatusWritten, Leaves;
    TasksMove(k, e, k');
    StepProcs(k, e, k');
    EndSpaces(k, e, k');
    var t, child := k.tasks[w], k.tasks[w].state.child;
    var waiter := FindWaiter(k.tasks, child).value;
    OneWaiter(k, w, waiter, child);
    WaiterFacts(k, w);
    ChildListed(k, t.pid.value, child);
    assert Leaves(k, e, child) by { ReportedLeaves(k, e, child); }
    StatusIsStored(k.spaces[k.procs[t.pid.value].root], t.state.statusPtr, EndStatus(e));
  }

  lemma ReportedLeaves(k: Kernel, e: Event, p: nat)
    requires p in k.procs && Reported(k, e) == Some(p)
    ensures Leaves(k, e, p)
  {
    hide FindWaiter, WaitAllowed;
  }

  /** waitpid on a child that has already ended tells the caller at once. */
  lemma PollReports(k: Kernel, e: Event, k': Kernel)
    requires Inv(k) && Next(k, e, k') && e.Wait? && Reported(k, e).Some?
    ensures Reported(k, e) == Some(e.child) && IsZombie(k.procs, e.child)
    ensures Told(k, k', k.current.value, e.child, StatusAddress(e.statusAddress), k.procs[e.child].state.exit)
  {
    hide Inv, RangeOk, CompleteWait, StatusStored, StatusWritten, SameShape;
    ReportExact(k, e);
    CompleteWaitExact(k, k.current.value, e.child, StatusAddress(e.statusAddress));
    StatusIsStored(k.spaces[k.procs[CurrentPid(k).value].root], StatusAddress(e.statusAddress), k.procs[e.child].state.exit);
  }

  // ----- what waitpid returns -----

  /** The smallest number that is an error: minus ENOSYS. */
  const FIRST_ERROR: nat := U64 - 38

  /** A waitpid for `child` by task `w` returns the child's pid in this step: at once, or
      after having blocked. */
  ghost predicate Answered(k: Kernel, e: Event, k': Kernel, w: nat, child: nat) {
    && w < |k.tasks| && w < |k'.tasks| && !k'.tasks[w].state.Blocked? && k'.tasks[w].rax == child
    && ((e.Wait? && e.child == child && k.current == Some(w)) || BlockedOn(k.tasks[w], child))
  }

  /** Blocking stays blocked whoever is picked next. */
  lemma StaysBlocked(k: Kernel, i: nat, child: nat, statusPtr: Option<nat>)
    requires i < |k.tasks|
    ensures
      var k' := PickNext(SetState(k, i, Blocked(child, statusPtr)), i);
      k'.tasks[i] == k.tasks[i].(state := Blocked(child, statusPtr))
  {
    hide PickNext;
    var blocked := SetState(k, i, Blocked(child, statusPtr));
    PickNextStep(blocked.tasks, blocked, i, None);
  }

  /** A waitpid that reports nothing blocks, or stores 0 or an error and does nothing
      else. */
  lemma UnreportedReturns(k: Kernel, child: nat, statusPtr: Option<nat>, options: nat)
    requires HasCurrent(k)
    requires !(CurrentPid(k).Some? && (options == 0 || options == WNOHANG)
               && WaitAllowed(k, CurrentPid(k).value, child, statusPtr) && IsZombie(k.procs, child))
    ensures
      var k', i := WaitPid(k, child, statusPtr, options), k.current.value;
      && i < |k'.tasks|
      && (k'.tasks[i].state.Blocked? && k.tasks[i].state == Running ==> k'.tasks[i].state == Blocked(child, statusPtr))
      && (!k'.tasks[i].state.Blocked? ==>
            && k' == SetRax(k, i, k'.tasks[i].rax)
            && (k'.tasks[i].rax >= FIRST_ERROR || (k'.tasks[i].rax == 0 && child != 0)))
  {
    hide PickNext, RangeOk, CompleteWait, SpaceOf;
    StaysBlocked(k, k.current.value, child, statusPtr);
  }

  /** What a waitpid returns tells whether it reported the child: unless it blocks, it
      returns the child's pid exactly if the child had ended and is now gone. */
  lemma WaitReturns(k: Kernel, e: Event, k': Kernel)
    requires Inv(k) && Next(k, e, k') && e.Wait? && e.child < FIRST_ERROR
    ensures k.current.value < |k'.tasks|
    ensures
      var t := k'.tasks[k.current.value];
      if t.state.Blocked? then Reported(k, e).None?
      else t.rax == e.child <==> Reported(k, e) == Some(e.child)
  {
    hide Inv, WaitPid, WaitAllowed, StatusStored;
    if Reported(k, e).Some? {
      PollReports(k, e, k');
      PollIsNotBlocked(k, e, k');
    } else {
      UnreportedReturns(k, e.child, StatusAddress(e.statusAddress), e.options);
    }
  }

  lemma PollIsNotBlocked(k: Kernel, e: Event, k': Kernel)
    requires Inv(k) && Next(k, e, k') && e.Wait? && Reported(k, e).Some?
    ensures k.current.value < |k'.tasks| && k'.tasks[k.current.value].state == Running
  {
    hide Core, CurrentOk, RangeOk, CompleteWait, StatusWritten, SameShape, NoneRunning;
    ReportExact(k, e);
    CompleteWaitExact(k, k.current.value, e.child, StatusAddress(e.statusAddress));
    OnlyCurrentRuns(k, Ready);
  }

  lemma UnreportedTables(k: Kernel, e: Event, k': Kernel)
    requires Next(k, e, k') && e.Wait? && Reported(k, e).None?
    ensures k'.procs == k.procs && k'.nextPid == k.nextPid && k'.spaces == k.spaces && k'.files == k.files
  {
    hide WaitPid, WaitAllowed;
    UnreportedWait(k, e.child, StatusAddress(e.statusAddress), e.options);
  }

  /** A waitpid that does not return the child's pid, because it blocks or returns an
      error or 0, leaves processes, files and all memory alone; unless it blocks, it
      leaves everything alone but its own result. */
  lemma UnreportedWaitKeepsAll(k: Kernel, e: Event, k': Kernel)
    requires Inv(k) && Next(k, e, k') && e.Wait? && k.current.value < |k'.tasks|
    requires k'.tasks[k.current.value].state.Blocked? || k'.tasks[k.current.value].rax != e.child
    ensures k'.procs == k.procs && k'.nextPid == k.nextPid && k'.spaces == k.spaces && k'.files == k.files
    ensures
      var i := k.current.value;
      if k'.tasks[i].state.Blocked? then k'.tasks[i].state == Blocked(e.child, StatusAddress(e.statusAddress))
      else k' == SetRax(k, i, k'.tasks[i].rax) && (k'.tasks[i].rax == 0 || k'.tasks[i].rax >= FIRST_ERROR)
  {
    hide Inv, WaitPid, WaitAllowed, StatusStored;
    if Reported(k, e).Some? {
      PollReports(k, e, k');
      PollIsNotBlocked(k, e, k');
    }
    CurrentRuns(k);
    UnreportedTables(k, e, k');
    UnreportedReturns(k, e.child, StatusAddress(e.statusAddress), e.options);
  }

  lemma CurrentRuns(k: Kernel)
    requires Inv(k) && HasCurrent(k)
    ensures k.tasks[k.current.value].state == Running
  {
    hide Core, CurrentOk, NoneRunning;
    OnlyCurrentRuns(k, Ready);
  }

  /** Whenever a waitpid returns a child's pid, that child's end is reported. */
  lemma AnsweredIsReported(k: Kernel, e: Event, k': Kernel, w: nat, child: nat)
    requires Inv(k) && Next(k, e, k') && child < FIRST_ERROR && Answered(k, e, k', w, child)
    ensures Reported(k, e) == Some(child)
  {
    hide Inv, Next, Reported, Told;
    if BlockedOn(k.tasks[w], child) {
      TasksMove(k, e, k');
      ChildEndWakes(k, e, k', w);
    } else {
      WaitReturns(k, e, k');
    }
  }

  /** In one step at most one task gets a child's pid from waitpid. */
  lemma AnsweredOneTask(k: Kernel, e: Event, k': Kernel, v: nat, w: nat, child: nat)
    requires Inv(k) && Next(k, e, k') && Answered(k, e, k', v, child) && Answered(k, e, k', w, child)
    ensures v == w
  {
    hide Inv, Next;
    TasksMove(k, e, k');
    if BlockedOn(k.tasks[v], child) && BlockedOn(k.tasks[w], child) {
      OneWaiter(k, v, w, child);
    }
  }

  // ----- over runs -----

  lemma RunStep(ks: seq<Kernel>, es: seq<Event>, i: nat)
    requires FromBoot(ks, es) && i < |es|
    ensures Inv(ks[i]) && Inv(ks[i + 1]) && Next(ks[i], es[i], ks[i + 1])
  {
    hide Next, Inv;
    BootRunInv(ks, es, i);
    BootRunInv(ks, es, i + 1);
  }

  /** A blocked task stays blocked, on the same child, until that child ends. */
  lemma {:induction false} BlockedUntilChildEnds(ks: seq<Kernel>, es: seq<Event>, a: nat, b: nat, w: nat)
    requires FromBoot(ks, es) && a <= b < |ks| && w < |ks[a].tasks| && ks[a].tasks[w].state.Blocked?
    requires forall i | a <= i < b :: EndedPid(ks[i], es[i]) != Some(ks[a].tasks[w].state.child)
    ensures w < |ks[b].tasks| && ks[b].tasks[w] == ks[a].tasks[w]
    ensures ks[a].tasks[w].state.child in ks[b].procs && ks[b].procs[ks[a].tasks[w].state.child].state.Alive?
    decreases b - a
  {
    hide FromBoot, Inv, Next;
    if a < b {
      BlockedUntilChildEnds(ks, es, a, b - 1, w);
      assert IsRun(ks, es) by { BootIsRun(ks, es); }
      RunStep(ks, es, b - 1);
      TasksMove(ks[b - 1], es[b - 1], ks[b]);
    }
    BootIsRun(ks, es);
    BootRunInv(ks, es, b);
    BlockedChildAlive(ks[b], w);
  }

  lemma BootIsRun(ks: seq<Kernel>, es: seq<Event>)
    requires FromBoot(ks, es)
    ensures IsRun(ks, es)
  {
  }

  lemma BlockedChildAlive(k: Kernel, w: nat)
    requires Inv(k) && w < |k.tasks| && k.tasks[w].state.Blocked?
    ensures k.tasks[w].state.child in k.procs && k.procs[k.tasks[w].state.child].state.Alive?
  {
    hide PidsOk, FamilyOk, OrphansAlive, FilesOk, SpacesOk, HeapsOk, CurrentOk, RangeOk;
    assert WaitOk(k.tasks[w], k.procs, k.spaces);
  }

  /** A ready task keeps its result until it runs. */
  lemma {:induction false} ResultKept(ks: seq<Kernel>, es: seq<Event>, a: nat, b: nat, w: nat)
    requires FromBoot(ks, es) && a <= b < |ks| && w < |ks[a].tasks| && CanRun(ks[a].tasks[w])
    requires forall i | a <= i < b :: w < |ks[i].tasks| && ks[i].tasks[w].state == Ready
    ensures w < |ks[b].tasks| && CanRun(ks[b].tasks[w]) && ks[b].tasks[w].rax == ks[a].tasks[w].rax
    decreases b - a
  {
    hide Inv, Next;
    if a < b {
      ResultKept(ks, es, a, b - 1, w);
      RunStep(ks, es, b - 1);
      TasksMove(ks[b - 1], es[b - 1], ks[b]);
    }
  }

  /** Whoever blocks in waitpid is answered when the child ends, however much later that
      is: with the child's pid and its real status, never with an error. From then on it
      can run, and when it does, at `d`, the pid is still there. */
  lemma WaitIsAnswered(ks: seq<Kernel>, es: seq<Event>, a: nat, c: nat, d: nat, w: nat)
    requires FromBoot(ks, es) && a <= c < d < |ks| && w < |ks[a].tasks| && ks[a].tasks[w].state.Blocked?
    requires EndedPid(ks[c], es[c]) == Some(ks[a].tasks[w].state.child)
    requires forall i | a <= i < c :: EndedPid(ks[i], es[i]) != Some(ks[a].tasks[w].state.child)
    requires forall i | c < i < d :: w < |ks[i].tasks| && ks[i].tasks[w].state == Ready
    ensures Told(ks[c], ks[c + 1], w, ks[a].tasks[w].state.child, ks[a].tasks[w].state.statusPtr, EndStatus(es[c]))
    ensures w < |ks[d].tasks| && CanRun(ks[d].tasks[w]) && ks[d].tasks[w].rax == ks[a].tasks[w].state.child
  {
    hide Inv, Next, StatusStored, FromBoot;
    BootIsRun(ks, es);
    BlockedUntilChildEnds(ks, es, a, c, w);
    RunStep(ks, es, c);
    ChildEndWakes(ks[c], es[c], ks[c + 1], w);
    ResultKept(ks, es, c + 1, d, w);
  }

  /** A finished or failed task never changes again. */
  lemma {:induction false} TerminalForever(ks: seq<Kernel>, es: seq<Event>, a: nat, b: nat, i: nat)
    requires FromBoot(ks, es) && a <= b < |ks| && i < |ks[a].tasks| && ks[a].tasks[i].Terminal()
    ensures i < |ks[b].tasks| && ks[b].tasks[i] == ks[a].tasks[i]
    decreases b - a
  {
    hide Inv, Next;
    if a < b {
      TerminalForever(ks, es, a, b - 1, i);
      RunStep(ks, es, b - 1);
      TasksMove(ks[b - 1], es[b - 1], ks[b]);
    }
  }

  /** A pid that has left the table never comes back. */
  lemma {:induction false} GoneForever(ks: seq<Kernel>, es: seq<Event>, a: nat, b: nat, p: nat)
    requires FromBoot(ks, es) && a <= b < |ks| && p < ks[a].nextPid && p !in ks[a].procs
    ensures p < ks[b].nextPid && p !in ks[b].procs
    decreases b - a
  {
    hide Inv, Next, Leaves, ProcStep;
    if a < b {
      GoneForever(ks, es, a, b - 1, p);
      RunStep(ks, es, b - 1);
      StepProcs(ks[b - 1], es[b - 1], ks[b]);
    }
  }

  lemma ReportedGoes(k: Kernel, e: Event, k': Kernel)
    requires Inv(k) && Next(k, e, k') && Reported(k, e).Some?
    ensures Reported(k, e).value in k.procs && Reported(k, e).value < k.nextPid <= k'.nextPid
    ensures Reported(k, e).value !in k'.procs
  {
    hide Inv, Next, FindWaiter, RangeOk, ProcStep;
    StepProcs(k, e, k');
    SpawnSteps.PidsBelow(k);
    if EndedPid(k, e).Some? {
      LiveProcess(k);
    }
    ReportedLeaves(k, e, Reported(k, e).value);
  }

  lemma ReportsDiffer(ks: seq<Kernel>, es: seq<Event>, a: nat, b: nat)
    requires FromBoot(ks, es) && a < b < |es| && Reported(ks[a], es[a]).Some?
    ensures Reported(ks[b], es[b]) != Reported(ks[a], es[a])
  {
    hide Inv, Next, Reported;
    RunStep(ks, es, a);
    RunStep(ks, es, b);
    var p := Reported(ks[a], es[a]).value;
    ReportedGoes(ks[a], es[a], ks[a + 1]);
    GoneForever(ks, es, a + 1, b, p);
    if Reported(ks[b], es[b]).Some? {
      ReportedGoes(ks[b], es[b], ks[b + 1]);
    }
  }

  /** Over any run at most one waitpid returns a given child's pid. */
  lemma ReportedOnce(ks: seq<Kernel>, es: seq<Event>, a: nat, b: nat, v: nat, w: nat, child: nat)
    requires FromBoot(ks, es) && a <= b < |es| && child < FIRST_ERROR
    requires Answered(ks[a], es[a], ks[a + 1], v, child) && Answered(ks[b], es[b], ks[b + 1], w, child)
    ensures a == b && v == w
  {
    hide Inv, Next, Reported, Answered;
    RunStep(ks, es, a);
    RunStep(ks, es, b);
    AnsweredIsReported(ks[a], es[a], ks[a + 1], v, child);
    AnsweredIsReported(ks[b], es[b], ks[b + 1], w, child);
    if a < b {
      ReportsDiffer(ks, es, a, b);
    } else {
      AnsweredOneTask(ks[a], es[a], ks[a + 1], v, w, child);
    }
  }

  /** A zombie's recorded status is how it really ended, at an earlier step. */
  lemma {:induction false} ZombieEnded(ks: seq<Kernel>, es: seq<Event>, b: nat, p: nat) returns (a: nat)
    requires FromBoot(ks, es) && b < |ks| && IsZombie(ks[b].procs, p)
    ensures a < b && EndedPid(ks[a], es[a]) == Some(p) && ks[b].procs[p].state == Zombie(EndStatus(es[a]))
    decreases b
  {
    hide Inv, Next, Leaves;
    BootIsEmpty(ks, es);
    RunStep(ks, es, b - 1);
    StepProcs(ks[b - 1], es[b - 1], ks[b]);
    if EndedPid(ks[b - 1], es[b - 1]) == Some(p) {
      a := b - 1;
    } else {
      a := ZombieEnded(ks, es, b - 1, p);
    }
  }

  lemma BootIsEmpty(ks: seq<Kernel>, es: seq<Event>)
    requires FromBoot(ks, es)
    ensures ks[0].procs == map[]
  {
  }
}

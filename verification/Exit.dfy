/** What the end of a process does for those who wait for it: killTask posts the semaphore of
    the process, waitpid collects it, and freeProcess posts for a process that was terminated
    before it could exit (Kernel/scheduler/processManager.c). */
module Exit {
  import opened Wrappers
  import opened KernelModel
  import opened KernelInvariant
  import opened KernelSteps
  import opened KernelRuns
  import opened SemaphoreRuns
  import Lifecycle

  /** The process with this pid is there and in this state. */
  predicate InState(s: State, pid: int, st: ProcessState) {
    var i := FindPid(s.procs, pid);
    i < |s.procs| && s.procs[i].state == st
  }

  /** It is READY and waits for nothing. */
  predicate Runs(s: State, pid: int) {
    InState(s, pid, READY) && s.procs[FindPid(s.procs, pid)].waitsOn == NO_SEM
  }

  /** killTask is not refused: the process is known, alive, and neither init nor the shell. */
  predicate Kills(s: State, pid: int) {
    && pid != s.initPid && pid != s.userlandPid
    && FindPid(s.procs, pid) < |s.procs| && !Dead(s.procs[FindPid(s.procs, pid)].state)
  }

  /** The semaphore of the process with this pid, by position. */
  function OwnSem(s: State, pid: int): (k: nat)
    requires FindPid(s.procs, pid) < |s.procs|
    ensures k <= |s.sems|
  {
    FindSem(s.sems, s.procs[FindPid(s.procs, pid)].semId)
  }

  // ---------------------------------------------------------------- what scheduleTask leaves alone

  /** A process that has not been terminated is still there after scheduleTask, and if it was
      READY or dead it is as it was. */
  lemma ScheduleKeepsPcb(s: State, j: nat)
    requires Inv(s) && j < |s.procs|
    requires s.procs[j].state == EXITED || (s.procs[j].state == READY && s.procs[j].waitsOn == NO_SEM)
    ensures var t := Schedule(s);
      FindPid(t.procs, s.procs[j].pid) < |t.procs| && t.procs[FindPid(t.procs, s.procs[j].pid)] == s.procs[j]
  {
    hide Inv, Schedule, Lifecycle.Evolves;
    TablesParts(s);
    Lifecycle.ScheduleKeepsProcesses(s);
    var t, p := Schedule(s), s.procs[j];
    assert Lifecycle.Remains(p, t);
    var q :| q in t.procs && (q == p || (!Dead(p.state) && q == p.(state := READY, waitsOn := NO_SEM)));
    var i :| 0 <= i < |t.procs| && t.procs[i] == q;
    FindPidUnique(t.procs, i);
  }

  // ---------------------------------------------------------------- killTask

  /** The first process in the queue that can still run, or the length of the queue. */
  function FirstRunnable(s: State, blocked: seq<int>): (w: nat)
    ensures w <= |blocked| && (w < |blocked| ==> CanRun(s, blocked[w]))
    ensures forall v :: 0 <= v < w ==> !CanRun(s, blocked[v])
  {
    if blocked == [] || CanRun(s, blocked[0]) then 0 else 1 + FirstRunnable(s, blocked[1..])
  }

  /** The semaphore after a post: one unit more if nobody in the queue can run, and otherwise
      the queue behind the first who can. */
  ghost predicate IsPosted(s: State, sem: Sem, sem': Sem) {
    var w := FirstRunnable(s, sem.blocked);
    if w == |sem.blocked| then sem' == sem.(blocked := [], value := sem.value + 1)
    else sem' == sem.(blocked := sem.blocked[w + 1..])
  }

  lemma DrainPosts(s: State, k: nat)
    requires k < |s.sems|
    ensures var t, sem := Drain(s, k), s.sems[k];
      var w := FirstRunnable(s, sem.blocked);
      && |t.sems| == |s.sems| && |t.procs| == |s.procs| && IsPosted(s, sem, t.sems[k])
      && (w == |sem.blocked| ==> t.procs == s.procs)
      && (w < |sem.blocked| ==>
          var i := FindPid(s.procs, sem.blocked[w]);
          t.procs == s.procs[i := s.procs[i].(state := READY, waitsOn := NO_SEM)])
  {
    hide Drain, FindPid;
    var sem := s.sems[k];
    var w := FirstRunnable(s, sem.blocked);
    PostWakesFirstLive(s, k);
    if w < |sem.blocked| {
      assert FirstLive(s, k, w);
      assert Drain(s, k) == Wake(s, k, w);
    } else {
      assert forall v: nat :: !FirstLive(s, k, v);
    }
  }

  /** The effect of an exit before the scheduler runs: the semaphore of the process has been
      posted, whoever waited for the process first runs, and the process is EXITED. */
  lemma ExitPosts(s: State, pid: int)
    requires Inv(s) && Kills(s, pid)
    ensures var i, k := FindPid(s.procs, pid), OwnSem(s, pid);
      var b := ChangeState(s, pid, EXITED).0;
      && k < |s.sems| == |b.sems| && FindSem(b.sems, s.procs[i].semId) == k && IsPosted(s, s.sems[k], b.sems[k])
      && (forall l :: 0 <= l < |s.sems| && l != k ==> b.sems[l] == s.sems[l])
      && |b.procs| == |s.procs| && b.procs[i].pid == pid && b.procs[i].semId == s.procs[i].semId
      && b.procs[i].state == EXITED
      && forall j :: 0 <= j < |s.procs| ==>
           && b.procs[j].pid == s.procs[j].pid
           && (j != i && IsFirstWaiter(s, k, j) ==> b.procs[j].state == READY && b.procs[j].waitsOn == NO_SEM)
           && (j != i && !IsFirstWaiter(s, k, j) ==> b.procs[j] == s.procs[j])
  {
    hide Inv, Drain, FindSem, FirstRunnable, CanRun, IsPosted;
    TablesParts(s);
    var i, k := FindPid(s.procs, pid), OwnSem(s, pid);
    OwnSemFound(s, i);
    DrainPosts(s, k);
    PostLeavesOthers(s, s.procs[i].semId);
    SameFind(s.sems, Drain(s, k).sems, s.procs[i].semId);
    OnlyFirstWaiter(s, k);
  }

  /** Process j is the first in the queue of semaphore k that can run. */
  predicate IsFirstWaiter(s: State, k: nat, j: nat)
    requires k < |s.sems| && j < |s.procs|
  {
    var w := FirstRunnable(s, s.sems[k].blocked);
    w < |s.sems[k].blocked| && s.sems[k].blocked[w] == s.procs[j].pid
  }

  lemma OnlyFirstWaiter(s: State, k: nat)
    requires PidsOk(s) && k < |s.sems|
    ensures forall j :: 0 <= j < |s.procs| ==>
              (IsFirstWaiter(s, k, j) <==>
               var w := FirstRunnable(s, s.sems[k].blocked);
               w < |s.sems[k].blocked| && j == FindPid(s.procs, s.sems[k].blocked[w]))
  {
    hide FirstRunnable;
    forall j | 0 <= j < |s.procs| ensures FindPid(s.procs, s.procs[j].pid) == j { FindPidUnique(s.procs, j); }
  }

  lemma OwnerOnly(s: State, i: nat)
    requires OwnSems(s, NO_SEM) && i < |s.procs| && s.procs[i].state == EXITED
    ensures NotFreed(s, s.procs[i].semId) && Dormant(s, s.procs[i].semId)
  {}

  /** A kill that is not refused: whoever waits for the process first, and can run, is READY and
      waits no more, whatever scheduleTask does at the end of the call; if nobody does, the
      semaphore of the process has one unit more. The process is EXITED. */
  lemma KillReleases(s: State, pid: int)
    requires Inv(s) && Legal(s, KillTask(pid)) && Kills(s, pid)
    ensures var t, k := Step(s, KillTask(pid)), OwnSem(s, pid);
      && k < |s.sems| && InState(t, pid, EXITED)
      && t.procs[FindPid(t.procs, pid)].semId == s.sems[k].id && Present(t, s.sems[k].id)
      && IsPosted(s, s.sems[k], t.sems[FindSem(t.sems, s.sems[k].id)])
      && var w := FirstRunnable(s, s.sems[k].blocked);
      w < |s.sems[k].blocked| && s.sems[k].blocked[w] != pid ==> Runs(t, s.sems[k].blocked[w])
  {
    hide Inv, Schedule, ChangeState, FindSem, FirstRunnable, IsPosted, CanRun, CallsScheduler;
    ExitPosts(s, pid);
    var b := Before(s, KillTask(pid));
    var i, k := FindPid(s.procs, pid), OwnSem(s, pid);
    var id := s.sems[k].id;
    TablesParts(s);
    TablesParts(b);
    OwnerOnly(b, i);
    FindPidUnique(b.procs, i);
    ScheduleKeepsPcb(b, i);
    KeptBySchedule(b, id);
    var w := FirstRunnable(s, s.sems[k].blocked);
    if w < |s.sems[k].blocked| && s.sems[k].blocked[w] != pid {
      RunnableFound(s, s.sems[k].blocked[w]);
      var j := FindPid(s.procs, s.sems[k].blocked[w]);
      assert IsFirstWaiter(s, k, j);
      FindPidUnique(b.procs, j);
      ScheduleKeepsPcb(b, j);
    }
  }

  /** init, the shell, an unknown process and a dead one cannot be killed: nothing happens. */
  lemma KillRefused(s: State, pid: int)
    requires Inv(s) && Legal(s, KillTask(pid)) && !Kills(s, pid)
    ensures Step(s, KillTask(pid)) == s
  {
    hide Inv, FindPid;
  }

  lemma RunnableFound(s: State, pid: int)
    requires CanRun(s, pid)
    ensures FindPid(s.procs, pid) < |s.procs|
  {}

  // ---------------------------------------------------------------- waitpid

  /** waitpid on a process that has exited blocks exactly if its unit is gone; otherwise it takes
      the unit, marks the process TERMINATED and does nothing else. */
  lemma WaitPidCollects(s: State, pid: int)
    requires Inv(s) && Legal(s, WaitPid(pid)) && InState(s, pid, EXITED)
    ensures var i, k := FindPid(s.procs, pid), OwnSem(s, pid);
      && k < |s.sems| && (CallsScheduler(s, WaitPid(pid)) <==> s.sems[k].value == 0)
      && (s.sems[k].value > 0 ==>
          Step(s, WaitPid(pid)) == s.(procs := s.procs[i := s.procs[i].(state := TERMINATED)],
                                      sems := s.sems[k := s.sems[k].(value := s.sems[k].value - 1)]))
  {
    hide Inv, FindSem;
    TablesParts(s);
    var i := FindPid(s.procs, pid);
    OwnSemFound(s, i);
    var k := FindSem(s.sems, s.procs[i].semId);
    assert s.sems[k].value >= 0;
    FindPidUnique(s.procs, 0);
  }

  // ---------------------------------------------------------------- until it is collected

  lemma ChangeKeepsExited(s: State, pid: int, st: ProcessState, i: nat)
    requires i < |s.procs| && s.procs[i].state == EXITED && PidsOk(s) && (st == TERMINATED ==> s.procs[i].pid != pid)
    ensures var r := ChangeState(s, pid, st).0;
      |r.procs| == |s.procs| && r.procs[i] == s.procs[i]
  {
    hide Post;
    var j := FindPid(s.procs, pid);
    if !Refuses(s, j, st) {
      PostWakes(s, s.procs[j].semId);
    }
  }

  lemma AwaitKeepsExited(s: State, pid: int, i: nat)
    requires Inv(s) && CurrentReady(s) && i < |s.procs| && s.procs[i].state == EXITED && s.procs[i].pid != pid
    ensures var b := AwaitExit(s, pid);
      |b.procs| == |s.procs| && b.procs[i] == s.procs[i]
  {
    hide Inv, WaitEntry, ChangeState, FindPid;
    var j := FindPid(s.procs, pid);
    if j < |s.procs| {
      WaitEntryKeepsInv(s, s.procs[j].semId);
      var r := WaitEntry(s, s.procs[j].semId);
      assert r.0.procs[i] == r.0.procs[1..][i - 1] == s.procs[1..][i - 1];
      TablesParts(r.0);
      ChangeKeepsExited(r.0, pid, TERMINATED, i);
    }
  }

  lemma BeforeKeepsExited(s: State, op: Op, i: nat)
    requires Inv(s) && Legal(s, op) && i < |s.procs| && s.procs[i].state == EXITED
    requires op != Terminate(s.procs[i].pid) && op != WaitPid(s.procs[i].pid)
    ensures var b := Before(s, op);
      && i < |b.procs| && b.procs[i].pid == s.procs[i].pid && b.procs[i].semId == s.procs[i].semId
      && b.procs[i].state == EXITED
  {
    hide Inv, ChangeState, WaitEntry, Post, Close, Open, FindPid, WaitsNowhere, Public, PidsOk;
    TablesParts(s);
    match op
    case KillTask(pid) => ChangeKeepsExited(s, pid, EXITED, i);
    case Terminate(pid) => ChangeKeepsExited(s, pid, TERMINATED, i);
    case BlockTask(pid) => ChangeKeepsExited(s, pid, BLOCKED, i);
    case ResumeTask(pid) => ChangeKeepsExited(s, pid, READY, i);
    case SemWait(id) => SameOwnSems(s, id);
    case SemPost(id) => PostWakes(s, id);
    case WaitPid(pid) => AwaitKeepsExited(s, pid, i);
    case SemOpen(name, value) => OpenKeepsProcs(s, name, value);
    case SemClose(id) => CloseKeepsProcs(s, id);
    case _ =>
  }

  lemma OpenKeepsProcs(s: State, name: string, value: int)
    ensures Open(s, name, value).procs == s.procs
  {}

  lemma CloseKeepsProcs(s: State, id: int)
    ensures Close(s, id).procs == s.procs
  {}

  /** Nobody but the kernel can post, close or open the semaphore of a process. */
  lemma OwnSemIsPrivate(s: State, op: Op, i: nat)
    requires Inv(s) && Legal(s, op) && i < |s.procs|
    ensures op != SemPost(s.procs[i].semId) && op != SemClose(s.procs[i].semId) && !Attaches(s, op, s.procs[i].semId)
  {
    hide Inv, FindSem, FindName;
    TablesParts(s);
    OwnSemFound(s, i);
  }

  /** Process i has exited, and its semaphore has units that nobody has taken. */
  ghost predicate Awaited(s: State, pid: int, id: int, units: int) {
    && InState(s, pid, EXITED) && s.procs[FindPid(s.procs, pid)].semId == id
    && Present(s, id) && s.sems[FindSem(s.sems, id)].value == units
  }

  /** As long as nobody waits for it, and it is not terminated otherwise, a process that has
      exited keeps its PCB, its state and the units of its semaphore. */
  lemma StepKeepsAwaited(s: State, op: Op, pid: int, id: int, units: int)
    requires Inv(s) && Legal(s, op) && Awaited(s, pid, id, units)
    requires op != Terminate(pid) && op != WaitPid(pid) && op != SemWait(id)
    ensures Awaited(Step(s, op), pid, id, units)
  {
    hide Inv, Schedule, Before, FindSem, CallsScheduler;
    TablesParts(s);
    var i := FindPid(s.procs, pid);
    BeforeKeepsExited(s, op, i);
    OwnSemIsPrivate(s, op, i);
    OwnerOnly(s, i);
    OwnsIsPid(s, i);
    KeptByOther(s, op, id);
    var b := Before(s, op);
    TablesParts(b);
    FindPidUnique(b.procs, i);
    OwnerOnly(b, i);
    ScheduleKeepsPcb(b, i);
    KeptBySchedule(b, id);
  }

  lemma OwnsIsPid(s: State, i: nat)
    requires OwnSems(s, NO_SEM) && i < |s.procs|
    ensures forall pid :: pid != s.procs[i].pid ==> !Owns(s, pid, s.procs[i].semId)
  {
    forall pid | pid != s.procs[i].pid ensures !Owns(s, pid, s.procs[i].semId) {
      var j := FindPid(s.procs, pid);
      if j < i { assert s.procs[j].semId != s.procs[i].semId; }
    }
  }

  lemma {:induction false} RunKeepsAwaited(states: seq<State>, ops: seq<Op>, pid: int, id: int, units: int, i: nat,
      n: nat)
    requires IsRun(states, ops) && i <= n <= |ops| && Awaited(states[i], pid, id, units)
    requires forall j :: i <= j < n ==> ops[j] != Terminate(pid) && ops[j] != WaitPid(pid) && ops[j] != SemWait(id)
    ensures Awaited(states[n], pid, id, units)
    decreases n
  {
    hide Inv, Step, Legal, Awaited;
    if n == i {
    } else {
      RunKeepsAwaited(states, ops, pid, id, units, i, n - 1);
      RunKeepsInv(states, ops, n - 1);
      assert Next(states[n - 1], ops[n - 1], states[n - 1 + 1]);
      StepKeepsAwaited(states[n - 1], ops[n - 1], pid, id, units);
    }
  }

  /** Nobody who can run is in the queue of the process's semaphore. */
  predicate NobodyWaits(s: State, pid: int)
    requires FindPid(s.procs, pid) < |s.procs|
  {
    var k := OwnSem(s, pid);
    k < |s.sems| ==> FirstRunnable(s, s.sems[k].blocked) == |s.sems[k].blocked|
  }

  lemma OwnSemEmpty(s: State, pid: int)
    requires Inv(s) && Kills(s, pid)
    ensures OwnSem(s, pid) < |s.sems| && s.sems[OwnSem(s, pid)].value == 0
  {
    TablesParts(s);
    OwnSemFound(s, FindPid(s.procs, pid));
  }

  /** A process that is killed while nobody waits for it can be waited for at any later time:
      the first waitpid does not block, and terminates it. */
  lemma LaterWaitPidCollects(states: seq<State>, ops: seq<Op>, i: nat, n: nat, pid: int)
    requires IsRun(states, ops) && i < n < |ops| && ops[i] == KillTask(pid) && ops[n] == WaitPid(pid)
    requires Kills(states[i], pid) && NobodyWaits(states[i], pid)
    requires forall j :: i < j < n ==> ops[j] != Terminate(pid) && ops[j] != WaitPid(pid)
    requires forall j :: i < j < n ==> ops[j] != SemWait(states[i].procs[FindPid(states[i].procs, pid)].semId)
    ensures !CallsScheduler(states[n], ops[n]) && InState(states[n + 1], pid, TERMINATED)
  {
    hide Inv, Step, Legal, CallsScheduler, FindPid;
    RunKeepsInv(states, ops, i);
    RunKeepsInv(states, ops, n);
    assert Next(states[i], ops[i], states[i + 1]) && Next(states[n], ops[n], states[n + 1]);
    KillReleases(states[i], pid);
    TablesParts(states[i]);
    var k := OwnSem(states[i], pid);
    var id := states[i].sems[k].id;
    OwnSemEmpty(states[i], pid);
    RunKeepsAwaited(states, ops, pid, id, 1, i + 1, n);
    WaitPidCollects(states[n], pid);
    TerminatedFound(states[n], pid);
  }

  lemma TerminatedFound(s: State, pid: int)
    requires FindPid(s.procs, pid) < |s.procs| && Inv(s)
    ensures var i := FindPid(s.procs, pid);
      FindPid(s.procs[i := s.procs[i].(state := TERMINATED)], pid) == i
  {
    TablesParts(s);
    var i := FindPid(s.procs, pid);
    FindPidUnique(s.procs[i := s.procs[i].(state := TERMINATED)], i);
  }

  // ---------------------------------------------------------------- the other changes of state

  /** Terminating, blocking or resuming a process sets its state and does nothing else to the
      processes or the semaphores, unless it is refused; then nothing happens at all. */
  lemma SetsStateOnly(s: State, pid: int, st: ProcessState)
    requires Inv(s) && st != EXITED
    ensures var i, r := FindPid(s.procs, pid), ChangeState(s, pid, st);
      && (r.1 <==> i < |s.procs| && s.procs[i].state != TERMINATED && (s.procs[i].state == EXITED ==> st == TERMINATED))
      && (!r.1 ==> r.0 == s)
      && (r.1 ==>
          && |r.0.procs| == |s.procs| && r.0.procs[i].state == st && r.0.procs[i].pid == pid
          && r.0.procs[i].semId == s.procs[i].semId && r.0.procs[i].priority == s.procs[i].priority
          && (forall j :: 0 <= j < |s.procs| && j != i ==> r.0.procs[j] == s.procs[j])
          && r.0.sems == s.sems && r.0.pidCounter == s.pidCounter)
  {}

  // ---------------------------------------------------------------- freeProcess

  /** freeProcess of a process terminated before it exited: whoever waits for it first, and
      can run, runs. */
  lemma FreeingReleases(s: State)
    requires Inv(s) && |s.procs| > 1 && s.procs[0].state == TERMINATED
    ensures var k := FindSem(s.sems, s.procs[0].semId);
      && k < |s.sems|
      && var w := FirstRunnable(s, s.sems[k].blocked);
      w < |s.sems[k].blocked| ==> Runs(FreeHead(s), s.sems[k].blocked[w])
  {
    hide Inv, Drain, FindSem, FirstRunnable, Close;
    TablesParts(s);
    OwnSemFound(s, 0);
    var k := FindSem(s.sems, s.procs[0].semId);
    var w := FirstRunnable(s, s.sems[k].blocked);
    FreeHeadKeepsInv(s);
    TablesParts(FreeHead(s));
    DrainPosts(s, k);
    if w < |s.sems[k].blocked| {
      var j := FindPid(s.procs, s.sems[k].blocked[w]);
      assert j > 0;
      CloseKeepsProcs(Drain(s, k), s.procs[0].semId);
      FindPidUnique(FreeHead(s).procs, j - 1);
    }
  }
}

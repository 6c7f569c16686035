/** What holds along every run of system calls and ticks. */
module KernelRuns {
  import opened Wrappers
  import opened KernelModel
  import opened KernelInvariant
  import opened KernelSteps

  datatype Op =
    | Tick
    | YieldCall
    | StartTask(foreground: bool)
    | KillTask(pid: int)
    | Terminate(pid: int)
    | NiceCall(pid: int, priority: int)
    | BlockTask(pid: int)
    | ResumeTask(pid: int)
    | SemOpen(name: string, value: int)
    | SemInit(value: int)
    | SemClose(id: int)
    | SemWait(id: int)
    | SemPost(id: int)
    | WaitPid(pid: int)

  /** What callers must respect: block and resume are not used on a process that waits on a
      semaphore, the semaphore of a process is neither posted nor closed by others, initial
      values are not negative, the idle process is left alone while it runs and then waits
      only where a unit is left, and a pid still held by a queue is not reused. */
  ghost predicate Legal(s: State, op: Op) {
    (s.mode.NotStarted? ==> op.Tick? || op.StartTask?)
    && match op
    case Tick => true
    case YieldCall => true
    case StartTask(_) => forall k, i :: !WaitsAt(s, k, i, s.pidCounter)
    case KillTask(pid) => !IsIdle(s, pid)
    case Terminate(pid) => !IsIdle(s, pid)
    case NiceCall(_, _) => true
    case BlockTask(pid) => !IsIdle(s, pid) && WaitsNowhere(s, pid)
    case ResumeTask(pid) => !IsIdle(s, pid) && WaitsNowhere(s, pid)
    case SemOpen(name, value) => name != "" && value >= 0
    case SemInit(value) => value >= 0
    case SemClose(id) => Public(s, id)
    case SemWait(id) => CurrentReady(s) || (s.mode.Idling? && !NoUnit(s, id))
    case SemPost(id) => Public(s, id)
    case WaitPid(_) => CurrentReady(s)
  }

  /** The idle process, while it is the current one; at other times no search finds its pid. */
  predicate IsIdle(s: State, pid: int) { s.mode.Idling? && pid == s.idle.pid }

  predicate CurrentReady(s: State) {
    s.mode.Running? && s.procs != [] && s.procs[0].state == READY
  }

  /** Does the operation end in a call of scheduleTask? */
  predicate CallsScheduler(s: State, op: Op) {
    match op
    case Tick => true
    case YieldCall => true
    case KillTask(pid) => pid != s.initPid && pid != s.userlandPid && IsCurrent(s, pid) && ChangeState(s, pid, EXITED).1
    case BlockTask(pid) => IsCurrent(s, pid) && ChangeState(s, pid, BLOCKED).1
    case SemWait(id) => CurrentReady(s) && WaitEntry(s, id).1
    case WaitPid(pid) =>
      var i := FindPid(s.procs, pid);
      CurrentReady(s) && i < |s.procs| && WaitEntry(s, s.procs[i].semId).1
    case _ => false
  }

  lemma SemWaitKeepsInv(s: State, id: int)
    requires Inv(s) && Legal(s, SemWait(id))
    ensures Inv(WaitEntry(s, id).0)
  {
    hide Inv;
    if NoUnit(s, id) { WaitEntryKeepsInv(s, id); } else { UnitKeepsInv(s, id); }
  }

  /** waitpid: the wait on the semaphore of the process, and its end if that did not block. */
  ghost function AwaitExit(s: State, pid: int): (r: State)
    requires Inv(s) && CurrentReady(s)
    ensures Inv(r)
  {
    var i := FindPid(s.procs, pid);
    if i == |s.procs| then s
    else
      WaitEntryKeepsInv(s, s.procs[i].semId);
      var r := WaitEntry(s, s.procs[i].semId);
      if r.1 then r.0
      else ChangeStateKeepsInv(r.0, pid, TERMINATED); ChangeState(r.0, pid, TERMINATED).0
  }

  /** The operation up to its call of scheduleTask, if it has one. */
  ghost function Before(s: State, op: Op): (r: State)
    requires Inv(s) && Legal(s, op)
    ensures Inv(r)
  {
    hide Inv, WaitEntry, ChangeState, Post, Close, Open, Create, Nice, Start, WaitsNowhere, Public;
    match op
    case Tick => s
    case YieldCall => CyclesKeepInv(s, 0); s.(cycles := 0)
    case StartTask(foreground) => StartKeepsInv(s, foreground); Start(s, foreground)
    case KillTask(pid) =>
      if pid == s.initPid || pid == s.userlandPid then s
      else ChangeStateKeepsInv(s, pid, EXITED); ChangeState(s, pid, EXITED).0
    case Terminate(pid) => ChangeStateKeepsInv(s, pid, TERMINATED); ChangeState(s, pid, TERMINATED).0
    case NiceCall(pid, priority) => NiceKeepsInv(s, pid, priority); Nice(s, pid, priority)
    case BlockTask(pid) => ChangeStateKeepsInv(s, pid, BLOCKED); ChangeState(s, pid, BLOCKED).0
    case ResumeTask(pid) => ChangeStateKeepsInv(s, pid, READY); ChangeState(s, pid, READY).0
    case SemOpen(name, value) => OpenKeepsInv(s, name, value); Open(s, name, value)
    case SemInit(value) => CreateKeepsInv(s, value, ""); Create(s, value, "")
    case SemClose(id) => CloseKeepsInv(s, id); Close(s, id)
    case SemWait(id) => SemWaitKeepsInv(s, id); WaitEntry(s, id).0
    case SemPost(id) => PostKeepsInv(s, id); Post(s, id)
    case WaitPid(pid) => AwaitExit(s, pid)
  }

  ghost function Step(s: State, op: Op): (r: State)
    requires Inv(s) && Legal(s, op)
    ensures Inv(r)
  {
    if CallsScheduler(s, op) then ScheduleKeepsInv(Before(s, op)); Schedule(Before(s, op))
    else Before(s, op)
  }

  ghost predicate Next(s: State, op: Op, s': State) {
    Inv(s) ==> Legal(s, op) && s' == Step(s, op)
  }

  /** A run: any sequence of legal operations from a state like the one after initScheduler. */
  ghost predicate IsRun(states: seq<State>, ops: seq<Op>) {
    && |states| == |ops| + 1
    && Inv(states[0])
    && forall i :: 0 <= i < |ops| ==> Next(states[i], ops[i], states[i + 1])
  }

  lemma {:induction false} RunKeepsInv(states: seq<State>, ops: seq<Op>, i: nat)
    requires IsRun(states, ops) && i <= |ops|
    ensures Inv(states[i])
    decreases i
  {
    if i == 0 {
    } else {
      RunKeepsInv(states, ops, i - 1);
      assert Next(states[i - 1], ops[i - 1], states[i - 1 + 1]);
    }
  }

  /** One more step at the end of a run. */
  lemma ExtendRun(states: seq<State>, ops: seq<Op>, op: Op) returns (states': seq<State>, ops': seq<Op>)
    requires IsRun(states, ops) && Inv(states[|ops|]) && Legal(states[|ops|], op)
    ensures IsRun(states', ops') && states'[0] == states[0] && |ops'| == |ops| + 1
    ensures states'[|ops'|] == Step(states[|ops|], op) && Inv(states'[|ops'|])
  {
    hide Step, Legal, Inv;
    states', ops' := states + [Step(states[|ops|], op)], ops + [op];
    forall i | 0 <= i < |ops'| ensures Next(states'[i], ops'[i], states'[i + 1]) {
      if i < |ops| { assert Next(states[i], ops[i], states[i + 1]); }
    }
  }

  /** Semaphores that nobody has used yet, as semInit numbers them. */
  predicate JustCreated(sems: seq<Sem>) {
    forall k :: 0 <= k < |sems| ==> sems[k].id == k && sems[k].value >= 0 && sems[k].blocked == []
  }

  /** What the kernel creates before the scheduler: the lock of the pipe table, and the two
      semaphores of the keyboard's pipe. */
  function BootSems(): (sems: seq<Sem>)
    ensures JustCreated(sems)
  {
    [Sem(0, 1, [], 1, ""), Sem(1, 0, [], 1, ""), Sem(2, 1024, [], 1, "")]
  }

  /** The idle process has pid 1 and init pid 2; before the first tick none is current. */
  function AfterInitScheduler(earlier: seq<Sem>): State {
    State([Pcb(2, READY, 1, |earlier| + 1, NO_SEM)], NotStarted, 0, 1, 3,
          earlier + [Sem(|earlier|, 0, [], 1, ""), Sem(|earlier| + 1, 0, [], 1, "")], |earlier| + 2,
          Pcb(1, READY, 1, |earlier|, NO_SEM), 2, -1)
  }

  lemma AfterInitSchedulerInv(earlier: seq<Sem>)
    requires JustCreated(earlier)
    ensures Inv(AfterInitScheduler(earlier))
  {
    hide WaitsOk, NumReady;
    var s := AfterInitScheduler(earlier);
    assert s.sems[|earlier| + 1].id == |earlier| + 1;
    assert HasSem(s.sems, |earlier| + 1);
    OneReady(s.procs[0]);
    assert forall k, i, pid :: !WaitsAt(s, k, i, pid);
    NobodyWaits(s);
  }

  lemma OneReady(p: Pcb)
    requires p.state == READY
    ensures NumReady([p]) == 1
  {
    assert [p][1..] == [];
  }

  lemma NobodyWaits(s: State)
    requires forall k, i, pid :: !WaitsAt(s, k, i, pid)
    requires forall j :: 0 <= j < |s.procs| ==> s.procs[j].waitsOn == NO_SEM
    ensures WaitsOk(s)
  {
    hide WaitsAt, HasSem;
  }

  /** The facts a reader wants, spelled out for every reachable state. */
  lemma ReachableStates(states: seq<State>, ops: seq<Op>, i: nat)
    requires IsRun(states, ops) && i <= |ops|
    // readyCount is exact, so the search loop of scheduleTask always finds a READY process.
    ensures states[i].readyCount == NumReady(states[i].procs)
    ensures states[i].readyCount > 0 <==> FirstReady(states[i].procs) < |states[i].procs|
    // Pids are distinct and below the counter.
    ensures PidsOk(states[i])
    // No semaphore has a negative value, nor waiters and a value.
    ensures ValuesOk(states[i])
    // A live process blocked by semWait is in exactly one queue, of a semaphore with value 0,
    // unless its semaphore was destroyed.
    ensures WaitsOnce(states[i])
    ensures forall j ::
      0 <= j < |states[i].procs| && !Dead(states[i].procs[j].state) && states[i].procs[j].waitsOn != NO_SEM ==>
      && states[i].procs[j].state == BLOCKED
      && (HasSem(states[i].sems, states[i].procs[j].waitsOn) ==>
         QueuedAtZero(states[i], states[i].procs[j].pid, states[i].procs[j].waitsOn))
    // The semaphore of a process that has not exited has value 0.
    ensures OwnSems(states[i], NO_SEM)
  {
    RunKeepsInv(states, ops, i);
    var s := states[i];
    ReadyExists(s.procs);
    forall j | 0 <= j < |s.procs| && !Dead(s.procs[j].state) && s.procs[j].waitsOn != NO_SEM
        && HasSem(s.sems, s.procs[j].waitsOn)
      ensures QueuedAtZero(s, s.procs[j].pid, s.procs[j].waitsOn)
    {
      assert Queued(s, s.procs[j].pid, s.procs[j].waitsOn);
      var k, l :| WaitsAt(s, k, l, s.procs[j].pid) && s.sems[k].id == s.procs[j].waitsOn;
      assert s.sems[k].value == 0;
    }
  }

  ghost predicate QueuedAtZero(s: State, pid: int, id: int) {
    exists k, i :: WaitsAt(s, k, i, pid) && s.sems[k].id == id && s.sems[k].value == 0
  }
}

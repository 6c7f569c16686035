/** How long a process keeps the processor, and what decides it: the quantum that scheduleTask
    gives, nice, yield and startTask (Kernel/scheduler/processManager.c). */
module Quantum {
  import opened Wrappers
  import opened KernelModel
  import opened KernelInvariant
  import opened KernelSteps
  import opened KernelRuns
  import opened BoundedWaiting
  import Exit
  import Lifecycle

  /** The process, or the idle one, is current. */
  predicate Holds(s: State, pid: int) { IsCurrent(s, pid) || IsIdle(s, pid) }

  /** A process of the queue is READY. */
  predicate OtherReady(s: State) {
    exists j :: QueueStart(s) <= j < |s.procs| && s.procs[j].state == READY
  }

  // ---------------------------------------------------------------- dispatch

  /** Whoever is chosen gets as many further ticks as its priority says. */
  lemma DispatchGivesPriority(s: State)
    requires Inv(s) && !KeepsRunning(s)
    ensures var t := Schedule(s);
      && (s.readyCount > 0 ==> t.mode.Running? && t.procs != [] && t.cycles == t.procs[0].priority)
      && (s.readyCount == 0 ==> t.mode.Idling? && t.cycles == t.idle.priority)
  {
    TablesParts(s);
    RequeuedReady(s);
  }

  /** Whoever stands behind another READY process is not the one that the search finds. */
  lemma {:induction false} SearchPassesOver(s: State, i: nat, j: nat)
    requires Inv(s) && s.mode.Running? && j < i < |s.procs| && s.procs[j].state == READY && s.procs[i].state == READY
    ensures FirstReady(s.procs) < |s.procs| && Search(s).procs[0].pid != s.procs[i].pid
    decreases FirstReady(s.procs)
  {
    hide Inv, FreeHead;
    FirstReadyBelow(s.procs, j);
    if s.procs[0].state == READY {
      TablesParts(s);
    } else if s.procs[0].state == TERMINATED {
      FreeHeadKeepsInv(s);
      FreeHeadWakes(s);
      WokenFirstReady(s.procs[1..], FreeHead(s).procs);
      WokenReady(s, i);
      WokenReady(s, j);
      SearchPassesOver(FreeHead(s), i - 1, j - 1);
    } else {
      RotateInv(s);
      RotateFirstReady(s.procs);
      SearchPassesOver(s.(procs := Rotate(s.procs)), i - 1, j - 1);
    }
  }

  /** Once its ticks are used up, the current process has to make way for any other. */
  lemma ScheduleMovesOn(s: State)
    requires Inv(s) && s.mode.Running? && s.procs[0].state == READY && s.cycles == 0 && OtherReady(s)
    ensures var t := Schedule(s);
      t.mode.Running? && t.procs != [] && t.procs[0].pid != s.procs[0].pid
  {
    hide Inv, Search, Rotate, FirstReady, NumReady;
    TablesParts(s);
    RequeuedReady(s);
    RotatedAt(s.procs);
    var j :| 1 <= j < |s.procs| && s.procs[j].state == READY;
    FirstReadyBelow(s.procs, j);
    ReadyExists(s.procs);
    RotateKeepsInv(s, Running, s.cycles);
    SearchPassesOver(s.(procs := Rotate(s.procs), mode := Running), |s.procs| - 1, j - 1);
  }

  /** l with its first i elements moved behind the others. */
  function Turned(l: seq<Pcb>, i: nat): seq<Pcb>
    requires i <= |l|
  {
    l[i..] + l[..i]
  }

  lemma {:induction false} SearchTurns(s: State, i: nat)
    requires Inv(s) && s.mode.Running? && i < |s.procs| && s.procs[i].state == READY
    requires forall j :: 0 <= j < i ==> s.procs[j].state == BLOCKED || s.procs[j].state == EXITED
    ensures FirstReady(s.procs) < |s.procs| && Search(s) == s.(procs := Turned(s.procs, i))
    decreases i
  {
    hide Inv, FreeHead, Turned, Rotate, FirstReady;
    FirstReadyBelow(s.procs, i);
    TurnedStep(s.procs, i);
    if i == 0 {
    } else {
      RotateInv(s);
      RotateFirstReady(s.procs);
      RotatedAt(s.procs);
      SearchTurns(s.(procs := Rotate(s.procs)), i - 1);
    }
  }

  lemma TurnedStep(l: seq<Pcb>, i: nat)
    requires i < |l|
    ensures i == 0 ==> Turned(l, i) == l
    ensures i > 0 ==> |Rotate(l)| == |l| && Turned(Rotate(l), i - 1) == Turned(l, i)
  {
    if i > 0 { assert Turned(Rotate(l), i - 1) == Turned(l, i); }
  }

  /** The queue is served in turn: with the current process put back at its end, the first READY
      one is chosen, and those passed over move behind the others in their order. (Where one of
      them is to be freed, that may make another READY before.) */
  lemma InTurn(s: State, i: nat)
    requires Inv(s) && !KeepsRunning(s) && i < |Requeued(s)| && Requeued(s)[i].state == READY
    requires forall j :: 0 <= j < i ==> Requeued(s)[j].state == BLOCKED || Requeued(s)[j].state == EXITED
    ensures s.readyCount > 0 && Schedule(s).procs == Turned(Requeued(s), i)
  {
    TablesParts(s);
    FirstReadyBelow(Requeued(s), i);
    RequeuedReady(s);
    if s.mode.Running? { RotateKeepsInv(s, Running, s.cycles); } else { ModeKeepsInv(s, Running, s.cycles); }
    SearchTurns(s.(procs := Requeued(s), mode := Running), i);
  }

  /** A call that ends in scheduleTask, and has stopped the current process or used up its ticks,
      leaves a READY process in front, or the idle one where there is none. */
  lemma FrontIsReady(s: State, op: Op)
    requires Inv(s) && Legal(s, op) && CallsScheduler(s, op)
    ensures var t := Step(s, op);
      && (t.mode.Running? ==> t.procs != [] && t.procs[0].state == READY)
      && (t.mode.NotStarted? ==> false)
  {
    var b := Before(s, op);
    hide Inv, Before;
    TablesParts(b);
    Lifecycle.ScheduleDispatches(b);
  }

  /** Blocking or killing the current process takes the processor from it. */
  lemma StoppedGivesWay(s: State, pid: int, op: Op)
    requires Inv(s) && Legal(s, op) && IsCurrent(s, pid) && s.procs[0].state == READY
    requires op == BlockTask(pid) || (op == KillTask(pid) && pid != s.initPid && pid != s.userlandPid)
    ensures CallsScheduler(s, op) && !(IsCurrent(Step(s, op), pid) && Step(s, op).procs[0].state != READY)
    ensures op.KillTask? ==> !IsCurrent(Step(s, op), pid)
  {
    hide Inv, Step;
    TablesParts(s);
    FindPidUnique(s.procs, 0);
    assert CallsScheduler(s, op);
    FrontIsReady(s, op);
    if op.KillTask? {
      Exit.KillReleases(s, pid);
      KilledNotReady(s, op, pid);
    }
  }

  lemma KilledNotReady(s: State, op: Op, pid: int)
    requires Inv(s) && Legal(s, op) && Exit.InState(Step(s, op), pid, EXITED)
    ensures IsCurrent(Step(s, op), pid) ==> Step(s, op).procs[0].state == EXITED
  {
    hide Inv;
    TablesParts(Step(s, op));
    if IsCurrent(Step(s, op), pid) { FindPidUnique(Step(s, op).procs, 0); }
  }

  // ---------------------------------------------------------------- runs

  /** No operation but a tick calls the scheduler: nobody yields, and the current process does
      not stop. */
  ghost predicate TicksOnly(states: seq<State>, ops: seq<Op>, n: nat)
    requires n <= |ops| < |states|
  {
    forall i :: 0 <= i < n && CallsScheduler(states[i], ops[i]) ==> ops[i] == Tick
  }

  /** Other calls use up no tick and do not move the current process. */
  lemma CyclesKept(s: State, op: Op)
    requires Inv(s) && Legal(s, op) && !op.YieldCall?
    ensures var b := Before(s, op);
      && b.cycles == s.cycles && b.mode == s.mode && b.idle.pid == s.idle.pid
      && |b.procs| >= |s.procs| && forall j :: 0 <= j < |s.procs| ==> b.procs[j].pid == s.procs[j].pid
  {
    BeforeFrame(s, op);
    CyclesBefore(s, op);
  }

  lemma CyclesBefore(s: State, op: Op)
    requires Inv(s) && Legal(s, op) && !op.YieldCall?
    ensures Before(s, op).cycles == s.cycles && Before(s, op).idle == s.idle
  {
    hide Inv, WaitEntry, ChangeState, Post, FindPid, FindSem, WaitsNowhere, Public;
    match op
    case KillTask(pid) => ChangeKeepsCycles(s, pid, EXITED);
    case Terminate(pid) => ChangeKeepsCycles(s, pid, TERMINATED);
    case BlockTask(pid) => ChangeKeepsCycles(s, pid, BLOCKED);
    case ResumeTask(pid) => ChangeKeepsCycles(s, pid, READY);
    case SemWait(id) => WaitKeepsCycles(s, id);
    case SemPost(id) => PostWakes(s, id);
    case WaitPid(pid) =>
      var i := FindPid(s.procs, pid);
      if i < |s.procs| {
        WaitKeepsCycles(s, s.procs[i].semId);
        ChangeKeepsCycles(WaitEntry(s, s.procs[i].semId).0, pid, TERMINATED);
      }
    case _ =>
  }

  lemma ChangeKeepsCycles(s: State, pid: int, st: ProcessState)
    ensures ChangeState(s, pid, st).0.cycles == s.cycles && ChangeState(s, pid, st).0.idle == s.idle
  {
    hide Post;
    var i := FindPid(s.procs, pid);
    if !Refuses(s, i, st) { PostWakes(s, s.procs[i].semId); }
  }

  lemma WaitKeepsCycles(s: State, id: int)
    requires NoUnit(s, id) ==> s.mode.Running? && s.procs != []
    ensures WaitEntry(s, id).0.cycles == s.cycles && WaitEntry(s, id).0.idle == s.idle
  {}

  /** A READY holder with ticks left keeps the processor, and one tick costs it one. */
  lemma StepKeepsHolder(s: State, op: Op, pid: int)
    requires Inv(s) && Legal(s, op) && Holds(s, pid) && (s.mode.Running? ==> s.procs[0].state == READY)
    requires !op.YieldCall? && (CallsScheduler(s, op) ==> op == Tick && s.cycles > 0)
    ensures var t := Step(s, op);
      Holds(t, pid) && t.mode == s.mode && t.cycles == s.cycles - (if CallsScheduler(s, op) then 1 else 0)
  {
    hide Inv, Before;
    CyclesKept(s, op);
    TickItself(s, op);
    TablesParts(s);
  }

  lemma TickItself(s: State, op: Op)
    requires Inv(s) && Legal(s, op)
    ensures op == Tick ==> Before(s, op) == s
  {}

  /** The holder of the processor keeps it through all of its ticks, each costing it one,
      whatever else is called meanwhile and whoever becomes READY. */
  lemma {:induction false} KeepsProcessor(states: seq<State>, ops: seq<Op>, pid: int, n: nat)
    requires IsRun(states, ops) && n <= |ops| && Holds(states[0], pid) && TicksOnly(states, ops, n)
    requires forall i :: 0 <= i < n ==> !ops[i].YieldCall? && (states[i].mode.Running? ==> StaysReady(states[i], pid))
    requires Calls(states, ops, n) <= states[0].cycles
    ensures Holds(states[n], pid) && states[n].mode == states[0].mode
    ensures states[n].cycles == states[0].cycles - Calls(states, ops, n)
    decreases n
  {
    hide Inv, Legal, Step, CallsScheduler, StaysReady;
    if n == 0 {
    } else {
      KeepsProcessor(states, ops, pid, n - 1);
      RunKeepsInv(states, ops, n - 1);
      assert Next(states[n - 1], ops[n - 1], states[n - 1 + 1]);
      FrontReady(states[n - 1], pid);
      StepKeepsHolder(states[n - 1], ops[n - 1], pid);
    }
  }

  lemma FrontReady(s: State, pid: int)
    requires Inv(s) && Holds(s, pid) && (s.mode.Running? ==> StaysReady(s, pid))
    ensures s.mode.Running? ==> s.procs != [] && s.procs[0].state == READY
  {
    if s.mode.Running? {
      TablesParts(s);
      FindPidUnique(s.procs, 0);
    }
  }

  /** The quantum, exactly: a process that scheduleTask has chosen and that stays READY is the
      current one for as many calls of scheduleTask as its priority then says; at the next
      tick, if another process is READY, it is not. */
  lemma QuantumIsPriority(s: State, states: seq<State>, ops: seq<Op>, pid: int, n: nat)
    requires Inv(s) && !KeepsRunning(s) && IsRun(states, ops) && states[0] == Schedule(s) && IsCurrent(states[0], pid)
    requires n < |ops| && TicksOnly(states, ops, n)
    requires forall i :: 0 <= i < n ==> !ops[i].YieldCall?
    requires forall i :: 0 <= i <= n && states[i].mode.Running? ==> StaysReady(states[i], pid)
    requires Calls(states, ops, n) <= states[0].procs[0].priority
    ensures IsCurrent(states[n], pid)
    ensures Calls(states, ops, n) == states[0].procs[0].priority && ops[n] == Tick && OtherReady(states[n]) ==>
              states[n + 1].mode.Running? && !IsCurrent(states[n + 1], pid)
  {
    hide Inv, Legal, Schedule, StaysReady, OtherReady, CallsScheduler;
    TablesParts(s);
    DispatchGivesPriority(s);
    KeepsProcessor(states, ops, pid, n);
    RunKeepsInv(states, ops, n);
    RunKeepsInv(states, ops, 0);
    if Calls(states, ops, n) == states[0].procs[0].priority && ops[n] == Tick && OtherReady(states[n]) {
      assert Next(states[n], ops[n], states[n + 1]);
      FrontReady(states[n], pid);
      TickSchedules(states[n]);
      ScheduleMovesOn(states[n]);
    }
  }

  lemma TickSchedules(s: State)
    requires Inv(s)
    ensures Legal(s, Tick) && Counted(s) && Step(s, Tick) == Schedule(s)
  {
    TablesParts(s);
  }

  // ---------------------------------------------------------------- nice, yield and startTask

  /** nice sets the priority of a process in the queue, forced into 0..20, and nothing else; it
      does not find the current one. */
  lemma NiceSets(s: State, pid: int, priority: int)
    requires Inv(s) && Legal(s, NiceCall(pid, priority))
    ensures var t, i := Step(s, NiceCall(pid, priority)), FindPid(s.procs, pid);
      if QueueStart(s) <= i < |s.procs| then
        && |t.procs| == |s.procs| && t == s.(procs := t.procs)
        && (forall j :: 0 <= j < |s.procs| && j != i ==> t.procs[j] == s.procs[j])
        && t.procs[i] == s.procs[i].(priority := t.procs[i].priority)
        && 0 <= t.procs[i].priority <= 20
        && (0 <= priority <= 20 ==> t.procs[i].priority == priority)
        && (priority < 0 ==> t.procs[i].priority == 0) && (priority > 20 ==> t.procs[i].priority == 20)
      else t == s
  {
    hide Inv, FindPid;
    TablesParts(s);
    var first := QueueStart(s);
    QueueFind(s, pid);
  }

  /** Where the search of the queue finds a pid. */
  lemma QueueFind(s: State, pid: int)
    requires PidsOk(s) && QueueStart(s) <= |s.procs|
    ensures var first, i := QueueStart(s), FindPid(s.procs, pid);
      first + FindPid(s.procs[first..], pid) == if first <= i then i else |s.procs|
  {
    hide FindPid;
    var first, i := QueueStart(s), FindPid(s.procs, pid);
    var k := FindPid(s.procs[first..], pid);
    if first <= i < |s.procs| { FoundBy(s.procs[first..], pid, i - first); }
    if first + k < |s.procs| {
      assert s.procs[first..][k] == s.procs[first + k];
      FindPidUnique(s.procs, first + k);
    }
  }

  lemma FoundBy(procs: seq<Pcb>, pid: int, j: nat)
    requires j < |procs| && procs[j].pid == pid
    ensures FindPid(procs, pid) <= j
  {}

  /** yield makes way for any other READY process; with none, nor one to be freed, the caller
      goes on with its ticks given anew. */
  lemma YieldMakesWay(s: State)
    requires Inv(s) && s.mode.Running? && s.procs != [] && s.procs[0].state == READY
    ensures Legal(s, YieldCall) && Step(s, YieldCall).mode.Running? && Step(s, YieldCall).procs != []
    ensures OtherReady(s) ==> !IsCurrent(Step(s, YieldCall), s.procs[0].pid)
    ensures (forall j :: 0 < j < |s.procs| ==> s.procs[j].state == BLOCKED || s.procs[j].state == EXITED) ==>
              IsCurrent(Step(s, YieldCall), s.procs[0].pid) && Step(s, YieldCall).cycles == s.procs[0].priority
  {
    hide Inv, Schedule, Step, Legal;
    var y := s.(cycles := 0);
    YieldSchedules(s);
    DispatchGivesPriority(y);
    if OtherReady(s) {
      var j :| QueueStart(s) <= j < |s.procs| && s.procs[j].state == READY;
      assert QueueStart(y) <= j < |y.procs| && y.procs[j].state == READY;
      ScheduleMovesOn(y);
    }
    if forall j :: 0 < j < |s.procs| ==> s.procs[j].state == BLOCKED || s.procs[j].state == EXITED {
      OnlyReadyGoesOn(y);
    }
  }

  lemma YieldSchedules(s: State)
    requires Inv(s) && s.mode.Running? && s.procs != [] && s.procs[0].state == READY
    ensures var y := s.(cycles := 0);
      && Inv(y) && Counted(y) && y.readyCount > 0 && Legal(s, YieldCall) && Step(s, YieldCall) == Schedule(y)
  {
    CyclesKeepInv(s, 0);
    TablesParts(s);
    FirstReadyBelow(s.procs, 0);
    ReadyExists(s.procs);
  }

  lemma OnlyReadyGoesOn(s: State)
    requires Inv(s) && s.mode.Running? && s.procs != [] && s.procs[0].state == READY && s.cycles == 0
    requires forall j :: 0 < j < |s.procs| ==> s.procs[j].state == BLOCKED || s.procs[j].state == EXITED
    ensures Schedule(s).procs != [] && Schedule(s).procs[0] == s.procs[0]
  {
    TablesParts(s);
    FirstReadyBelow(s.procs, 0);
    ReadyExists(s.procs);
    RotatedAt(s.procs);
    InTurn(s, |s.procs| - 1);
  }

  /** startTask: a READY process at the end of the queue, with a pid and a semaphore that no
      other process has, the latter without units or waiters. In the foreground it gets one
      tick more than in the background. Nothing else changes. */
  lemma StartsReady(s: State, foreground: bool)
    requires Inv(s) && Legal(s, StartTask(foreground))
    ensures var t, n := Step(s, StartTask(foreground)), |s.procs|;
      && |t.procs| == n + 1 && t.procs[..n] == s.procs && t.procs[n].state == READY
      && t.procs[n].priority == (if foreground then 2 else 1)
      && (forall j :: 0 <= j < n ==> s.procs[j].pid != t.procs[n].pid && s.procs[j].semId != t.procs[n].semId)
      && |t.sems| == |s.sems| + 1 && t.sems[..|s.sems|] == s.sems
      && t.sems[|s.sems|].id == t.procs[n].semId && t.sems[|s.sems|].value == 0 && t.sems[|s.sems|].blocked == []
      && t.mode == s.mode && t.cycles == s.cycles
  {
    hide Inv;
    TablesParts(s);
    OwnIdsBelow(s);
  }
}

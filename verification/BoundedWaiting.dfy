/** Bounded waiting: how long a READY process can stay in the queue of scheduleTask. */
module BoundedWaiting {
  import opened Wrappers
  import opened KernelModel
  import opened KernelInvariant
  import opened KernelSteps
  import opened KernelRuns

  /** The position in procs at which the queue starts. */
  function QueueStart(s: State): nat { if s.mode.Running? then 1 else 0 }

  /** The process is in the queue and READY. */
  predicate ReadyInQueue(s: State, pid: int) {
    var i := FindPid(s.procs, pid);
    QueueStart(s) <= i < |s.procs| && s.procs[i].state == READY
  }

  function QueueIndex(s: State, pid: int): nat
    requires ReadyInQueue(s, pid)
  {
    FindPid(s.procs, pid) - QueueStart(s)
  }

  /** The bound on the scheduler calls still to come before the process is dispatched. */
  function Bound(s: State, pid: int): int
    requires ReadyInQueue(s, pid)
  {
    s.cycles + 1 + (MAX_PRIO + 1) * QueueIndex(s, pid)
  }

  lemma PidAt(s: State, i: nat)
    requires Inv(s) && i < |s.procs|
    ensures FindPid(s.procs, s.procs[i].pid) == i
  {
    TablesParts(s);
    FindPidUnique(s.procs, i);
  }

  /** Every step of the search moves the queue one place forward, whatever it frees or wakes. */
  lemma {:induction false} SearchMovesForward(s: State, i: nat) returns (j: nat)
    requires Inv(s) && s.mode.Running? && i < |s.procs| && s.procs[i].state == READY
    ensures FirstReady(s.procs) < |s.procs|
    ensures j <= i && j < |Search(s).procs| && Search(s).procs[j] == s.procs[i]
    decreases FirstReady(s.procs)
  {
    hide Inv, FreeHead;
    FirstReadyBelow(s.procs, i);
    if s.procs[0].state == READY {
      j := i;
    } else if s.procs[0].state == TERMINATED {
      FreeHeadKeepsInv(s);
      FreeHeadWakes(s);
      WokenFirstReady(s.procs[1..], FreeHead(s).procs);
      WokenReady(s, i);
      j := SearchMovesForward(FreeHead(s), i - 1);
    } else {
      RotateInv(s);
      RotateFirstReady(s.procs);
      j := SearchMovesForward(s.(procs := Rotate(s.procs)), i - 1);
    }
  }

  lemma FirstReadyBelow(procs: seq<Pcb>, i: nat)
    requires i < |procs| && procs[i].state == READY
    ensures FirstReady(procs) <= i
  {}

  /** A process that is READY already is not touched by the freeing of another one. */
  lemma WokenReady(s: State, i: nat)
    requires Inv(s) && 0 < i < |s.procs| && s.procs[i].state == READY
    ensures |FreeHead(s).procs| == |s.procs| - 1 && FreeHead(s).procs[i - 1] == s.procs[i]
  {
    FreeHeadWakes(s);
    TablesParts(s);
    var t := s.procs[1..];
    assert t[i - 1] == s.procs[i];
  }

  lemma NotKeptRunning(s: State, pid: int)
    requires Inv(s) && ReadyInQueue(s, pid) && !KeepsRunning(s)
    ensures var s' := Schedule(s);
      && s'.mode.Running? && s'.procs != [] && 0 <= s'.cycles <= MAX_PRIO
      && exists j: nat ::
           j <= QueueIndex(s, pid) && j < |s'.procs| && s'.procs[j].pid == pid && s'.procs[j].state == READY
  {
    var i := FindPid(s.procs, pid);
    var q := QueueIndex(s, pid);
    ReadyExists(s.procs);
    FirstReadyBelow(s.procs, i);
    TablesParts(s);
    RequeuedReady(s);
    if s.mode.Running? {
      RotatedAt(s.procs);
      RotateKeepsInv(s, Running, s.cycles);
    } else {
      ModeKeepsInv(s, Running, s.cycles);
    }
    var s1 := s.(procs := Requeued(s), mode := Running);
    assert s1.procs[q] == s.procs[i];
    var j := SearchMovesForward(s1, q);
    SearchKeepsInv(s1);
    TablesParts(Search(s1));
    assert Schedule(s).procs[j].pid == pid;
  }

  /** One call of scheduleTask dispatches the process or brings it closer. */
  lemma ScheduleProgress(s: State, pid: int)
    requires Inv(s) && ReadyInQueue(s, pid)
    ensures var s' := Schedule(s);
      || (s'.mode.Running? && s'.procs != [] && s'.procs[0].pid == pid)
      || (ReadyInQueue(s', pid) && Bound(s', pid) < Bound(s, pid))
  {
    TablesParts(s);
    if !KeepsRunning(s) {
      NotKeptRunning(s, pid);
      ScheduleKeepsInv(s);
      var s' := Schedule(s);
      var j: nat :| j <= QueueIndex(s, pid) && j < |s'.procs| && s'.procs[j].pid == pid && s'.procs[j].state == READY;
      PidAt(s', j);
    }
  }

  /** b has the same processes at the same places, and no more cycles. */
  ghost predicate Framed(s: State, b: State) {
    && b.mode == s.mode && b.cycles <= s.cycles && |b.procs| >= |s.procs|
    && forall j :: 0 <= j < |s.procs| ==> b.procs[j].pid == s.procs[j].pid
  }

  ghost predicate ReadyKept(s: State, b: State)
    requires |b.procs| >= |s.procs|
  {
    forall j :: QueueStart(s) <= j < |s.procs| && s.procs[j].state == READY ==> b.procs[j].state == READY
  }

  lemma ProcessCallFrame(s: State, op: Op)
    requires Inv(s) && Legal(s, op) && (op.KillTask? || op.Terminate? || op.BlockTask? || op.ResumeTask?)
    ensures Framed(s, Before(s, op)) && (CallsScheduler(s, op) ==> ReadyKept(s, Before(s, op)))
  {
    hide Inv, WaitsNowhere;
    match op
    case KillTask(pid) => ChangeStateFrame(s, pid, EXITED);
    case Terminate(pid) => ChangeStateFrame(s, pid, TERMINATED);
    case BlockTask(pid) => ChangeStateFrame(s, pid, BLOCKED);
    case ResumeTask(pid) => ChangeStateFrame(s, pid, READY);
  }

  lemma WaitCallFrame(s: State, op: Op)
    requires Inv(s) && Legal(s, op) && (op.SemWait? || op.WaitPid?)
    ensures Framed(s, Before(s, op)) && (CallsScheduler(s, op) ==> ReadyKept(s, Before(s, op)))
  {
    hide Inv, WaitEntry;
    match op
    case SemWait(id) => WaitEntryFrame(s, id);
    case WaitPid(pid) =>
      var i := FindPid(s.procs, pid);
      if i < |s.procs| {
        WaitEntryFrame(s, s.procs[i].semId);
        var r := WaitEntry(s, s.procs[i].semId);
        if !r.1 { ChangeStateFrame(r.0, pid, TERMINATED); }
      }
  }

  lemma PostCallFrame(s: State, id: int)
    requires Inv(s) && Legal(s, SemPost(id))
    ensures Framed(s, Before(s, SemPost(id)))
  {
    hide Inv;
    PostWakes(s, id);
    PostKeepsPids(s, id);
  }

  lemma SemCallFrame(s: State, op: Op)
    requires Inv(s) && Legal(s, op) && (op.SemOpen? || op.SemInit? || op.SemClose?)
    ensures Framed(s, Before(s, op))
  {
    hide Inv;
  }

  lemma OtherCallFrame(s: State, op: Op)
    requires Inv(s) && Legal(s, op) && (op.Tick? || op.YieldCall? || op.StartTask? || op.NiceCall?)
    ensures Framed(s, Before(s, op)) && (CallsScheduler(s, op) ==> ReadyKept(s, Before(s, op)))
  {
    hide Inv, PidsOk, SemIdsOk, ValuesOk, WaitsOnce, WaitersStopped, WaitersQueued, OwnSems, WaitsAt, IdleNeverWaits,
         Counted;
    TablesParts(s);
  }

  /** What comes before the scheduler call neither moves a process nor adds cycles, and it
      leaves every READY process of the queue READY. */
  lemma BeforeFrame(s: State, op: Op)
    requires Inv(s) && Legal(s, op)
    ensures Framed(s, Before(s, op)) && (CallsScheduler(s, op) ==> ReadyKept(s, Before(s, op)))
  {
    if op.KillTask? || op.Terminate? || op.BlockTask? || op.ResumeTask? { ProcessCallFrame(s, op); }
    else if op.SemWait? || op.WaitPid? { WaitCallFrame(s, op); }
    else if op.SemPost? { PostCallFrame(s, op.id); }
    else if op.SemOpen? || op.SemInit? || op.SemClose? { SemCallFrame(s, op); }
    else { OtherCallFrame(s, op); }
  }

  lemma ChangeStateFrame(s: State, pid: int, st: ProcessState)
    ensures var r := ChangeState(s, pid, st).0;
      && r.mode == s.mode && r.cycles == s.cycles && |r.procs| == |s.procs|
      && (forall j :: 0 <= j < |s.procs| ==> r.procs[j].pid == s.procs[j].pid)
      && (forall j :: 0 <= j < |s.procs| && s.procs[j].state == READY && j != FindPid(s.procs, pid) ==>
         r.procs[j].state == READY)
  {
    var i := FindPid(s.procs, pid);
    if !Refuses(s, i, st) && st == EXITED {
      PostWakes(s, s.procs[i].semId);
      PostKeepsPids(s, s.procs[i].semId);
    }
  }

  lemma WaitEntryFrame(s: State, id: int)
    requires NoUnit(s, id) ==> s.mode.Running? && s.procs != []
    ensures var r := WaitEntry(s, id).0;
      && r.mode == s.mode && r.cycles == s.cycles && |r.procs| == |s.procs|
      && (forall j :: 0 <= j < |s.procs| ==> r.procs[j].pid == s.procs[j].pid)
      && (forall j :: 0 < j < |s.procs| ==> r.procs[j] == s.procs[j])
  {}

  /** A step during which the process stays READY and in the queue. */
  lemma StepProgress(s: State, op: Op, pid: int)
    requires Inv(s) && Legal(s, op) && ReadyInQueue(s, pid) && ReadyInQueue(Step(s, op), pid)
    ensures Bound(Step(s, op), pid) <= Bound(s, pid) - (if CallsScheduler(s, op) then 1 else 0)
  {
    BeforeFrame(s, op);
    var b := Before(s, op);
    var i := FindPid(s.procs, pid);
    PidAt(b, i);
    if CallsScheduler(s, op) {
      assert ReadyInQueue(b, pid) && Bound(b, pid) <= Bound(s, pid);
      ScheduleProgress(b, pid);
      ScheduleKeepsInv(b);
    }
  }

  /** Calls of scheduleTask in the first n operations of a run. */
  function Calls(states: seq<State>, ops: seq<Op>, n: nat): nat
    requires n <= |ops| < |states|
  {
    if n == 0 then 0 else Calls(states, ops, n - 1) + (if CallsScheduler(states[n - 1], ops[n - 1]) then 1 else 0)
  }

  /** While a process is READY and has not been dispatched, fewer calls of scheduleTask than
      currentCycles + 1 + 21 * p have been made, whatever the other processes did: so it is
      dispatched within that many calls. */
  lemma {:induction false} WaitIsBounded(states: seq<State>, ops: seq<Op>, pid: int, n: nat)
    requires IsRun(states, ops) && n <= |ops|
    requires forall i :: 0 <= i <= n ==> ReadyInQueue(states[i], pid)
    ensures Calls(states, ops, n) + Bound(states[n], pid) <= Bound(states[0], pid)
    ensures Calls(states, ops, n) < states[0].cycles + 1 + 21 * QueueIndex(states[0], pid)
    decreases n
  {
    hide Inv, Step, Legal, CallsScheduler, ReadyInQueue;
    RunKeepsInv(states, ops, n);
    BoundPositive(states[n], pid);
    if n == 0 {
    } else {
      WaitIsBounded(states, ops, pid, n - 1);
      RunKeepsInv(states, ops, n - 1);
      assert Next(states[n - 1], ops[n - 1], states[n - 1 + 1]);
      StepProgress(states[n - 1], ops[n - 1], pid);
    }
  }

  lemma BoundPositive(s: State, pid: int)
    requires Inv(s) && ReadyInQueue(s, pid)
    ensures Bound(s, pid) > 0
  {
    TablesParts(s);
  }

  /** The process is in the queue or running, and READY. */
  predicate StaysReady(s: State, pid: int) {
    var i := FindPid(s.procs, pid);
    i < |s.procs| && s.procs[i].state == READY
  }

  /** A process that enters the queue READY and stays READY is dispatched within
      currentCycles + 1 + 21 * p calls of scheduleTask, where p is its place in the queue. */
  lemma {:induction false} DispatchedInTime(states: seq<State>, ops: seq<Op>, pid: int)
    requires IsRun(states, ops) && ReadyInQueue(states[0], pid)
    requires forall i :: 0 <= i <= |ops| ==> StaysReady(states[i], pid)
    requires Calls(states, ops, |ops|) >= states[0].cycles + 1 + 21 * QueueIndex(states[0], pid)
    ensures exists i :: 0 < i <= |ops| && IsCurrent(states[i], pid)
  {
    hide Calls, FindPid;
    if forall i :: 0 < i <= |ops| ==> !IsCurrent(states[i], pid) {
      forall i | 0 <= i <= |ops| ensures ReadyInQueue(states[i], pid) {
        if i > 0 { InQueueUnlessCurrent(states[i], pid); }
      }
      WaitIsBounded(states, ops, pid, |ops|);
    }
  }

  lemma InQueueUnlessCurrent(s: State, pid: int)
    requires StaysReady(s, pid)
    ensures ReadyInQueue(s, pid) || IsCurrent(s, pid)
  {}
}

/** What happens when freeProcess steps pidCounter back while a semaphore still holds the pid
    of the process freed: the next process gets that pid, and with it the place in the queue
    (Kernel/scheduler/processManager.c, Kernel/semaphores/sem.c). */
module PidReuse {
  import opened Wrappers
  import opened KernelModel
  import opened KernelInvariant
  import opened KernelSteps
  import opened KernelRuns

  /** Some queue holds this pid. */
  ghost predicate Held(s: State, pid: int) { exists k, i :: WaitsAt(s, k, i, pid) }

  /** Starting a process keeps the invariant if and only if its pid is in no queue. */
  lemma StartIsSafeIff(s: State, foreground: bool)
    requires Inv(s)
    ensures Inv(Start(s, foreground)) <==> !Held(s, s.pidCounter)
  {
    hide Inv;
    if !Held(s, s.pidCounter) {
      StartKeepsInv(s, foreground);
    } else {
      var k, i :| WaitsAt(s, k, i, s.pidCounter);
      HeldByReady(s, foreground, k, i);
      if Inv(Start(s, foreground)) {
        TablesParts(Start(s, foreground));
      }
    }
  }

  lemma HeldByReady(s: State, foreground: bool, k: int, i: int)
    requires WaitsAt(s, k, i, s.pidCounter)
    ensures !WaitersStopped(Start(s, foreground))
  {
    var s' := Start(s, foreground);
    var j := |s.procs|;
    assert WaitsAt(s', k, i, s'.procs[j].pid) && s'.procs[j].state == READY;
  }

  /** The post neither wakes a process nor adds to the value. */
  predicate Swallowed(s: State, s': State, k: nat) {
    && |s'.sems| == |s.sems| && k < |s.sems|
    && s'.procs == s.procs && s'.readyCount == s.readyCount && s'.sems[k].value == s.sems[k].value
  }

  /** A post is swallowed if and only if the first live process in the queue is READY. */
  lemma SwallowedIff(s: State, k: nat)
    requires k < |s.sems| && forall j :: 0 <= j < |s.procs| && s.procs[j].state == READY ==>
             s.procs[j].waitsOn == NO_SEM
    ensures Swallowed(s, Drain(s, k), k) <==>
            exists w: nat :: FirstLive(s, k, w) && s.procs[FindPid(s.procs, s.sems[k].blocked[w])].state == READY
  {
    hide Drain;
    PostWakesFirstLive(s, k);
    if w: nat :| FirstLive(s, k, w) {
      var i := FindPid(s.procs, s.sems[k].blocked[w]);
      assert Drain(s, k) == Wake(s, k, w);
      assert Drain(s, k).procs[i].state == READY;
      if s.procs[i].state == READY {
        assert s.procs[i].(state := READY, waitsOn := NO_SEM) == s.procs[i];
      }
      forall v: nat | FirstLive(s, k, v) ensures v == w { FirstLiveUnique(s, k, v, w); }
    } else {
      assert Drain(s, k).sems[k].value == s.sems[k].value + 1;
    }
  }

  /** While the invariant holds no post is swallowed. */
  lemma NoPostIsSwallowed(s: State, k: nat)
    requires Inv(s) && k < |s.sems|
    ensures !Swallowed(s, Drain(s, k), k)
  {
    hide Inv;
    TablesParts(s);
    SwallowedIff(s, k);
    forall w: nat | FirstLive(s, k, w) ensures s.procs[FindPid(s.procs, s.sems[k].blocked[w])].state != READY {
      assert WaitsAt(s, k, w, s.procs[FindPid(s.procs, s.sems[k].blocked[w])].pid);
    }
  }

  /** After the reuse one is: if those in front of the pid are dead, the next post is lost on
      the new process, which never waited. */
  lemma ReuseSwallowsPost(s: State, foreground: bool, k: nat, i: nat)
    requires Inv(s) && WaitsAt(s, k, i, s.pidCounter)
    requires forall v :: 0 <= v < i ==> !CanRun(s, s.sems[k].blocked[v])
    ensures Swallowed(Start(s, foreground), Drain(Start(s, foreground), k), k)
  {
    hide Inv;
    TablesParts(s);
    var s' := Start(s, foreground);
    NewPidFound(s, foreground, s.pidCounter);
    forall v | 0 <= v < i ensures !CanRun(s', s'.sems[k].blocked[v]) {
      assert WaitsAt(s, k, v, s.sems[k].blocked[v]);
      NewPidFound(s, foreground, s.sems[k].blocked[v]);
    }
    assert FirstLive(s', k, i);
    SwallowedIff(s', k);
  }

  /** The new process is found under its pid, and every other pid finds what it found before. */
  lemma NewPidFound(s: State, foreground: bool, pid: int)
    requires PidsOk(s)
    ensures var s' := Start(s, foreground);
      && (pid == s.pidCounter ==> FindPid(s'.procs, pid) == |s.procs| && s'.procs[|s.procs|].state == READY)
      && (pid != s.pidCounter ==> (CanRun(s', pid) <==> CanRun(s, pid)))
  {
    var s' := Start(s, foreground);
    var i := FindPid(s'.procs, pid);
    var j := FindPid(s.procs, pid);
    if j < |s.procs| { assert s'.procs[j].pid == pid; }
    assert s'.procs[|s.procs|].pid == s.pidCounter;
    if i < |s.procs| { assert s.procs[i].pid == pid; }
  }

  /** And this is how it comes about: a process with the highest pid that was terminated while
      it waited is freed, the counter steps back to its pid, and the queue keeps it. No other
      freeProcess leaves the next pid in a queue. */
  lemma FreeingLeavesPidHeld(s: State)
    requires Inv(s) && |s.procs| > 1 && s.procs[0].state == TERMINATED && !Held(s, s.pidCounter)
    ensures var p := s.procs[0];
      Held(FreeHead(s), FreeHead(s).pidCounter) <==>
      p.pid == s.pidCounter - 1 && exists k, i :: WaitsAt(s, k, i, p.pid) && s.sems[k].id != p.semId
  {
    hide Inv, FreeHead, WaitsAt;
    var p, s' := s.procs[0], FreeHead(s);
    var own := FreeHeadQueues(s);
    if p.pid == s.pidCounter - 1 {
      if k, i :| WaitsAt(s, k, i, p.pid) && s.sems[k].id != p.semId {
        assert WaitsAt(s', if k < own then k else k - 1, i, p.pid);
      }
    }
    if Held(s', s'.pidCounter) {
      var k, i :| WaitsAt(s', k, i, s'.pidCounter);
      assert WaitsAt(s, if k < own then k else k + 1, i, s'.pidCounter);
    }
  }

  /** The queues that freeProcess leaves: its own semaphore is gone, and no other has changed. */
  lemma FreeHeadQueues(s: State) returns (own: nat)
    requires Inv(s) && |s.procs| > 1 && s.procs[0].state == TERMINATED
    ensures own < |s.sems| && forall k :: 0 <= k < |s.sems| ==> (s.sems[k].id == s.procs[0].semId <==> k == own)
    ensures FreeHead(s).pidCounter == s.pidCounter - (if s.procs[0].pid == s.pidCounter - 1 then 1 else 0)
    ensures forall k, i, pid :: WaitsAt(FreeHead(s), k, i, pid) <==>
            k >= 0 && WaitsAt(s, if k < own then k else k + 1, i, pid)
    ensures forall k, i, pid :: WaitsAt(s, k, i, pid) ==> 0 <= k < |s.sems|
  {
    hide Inv, Drain, FindSem, HasSem;
    var p := s.procs[0];
    TablesParts(s);
    own := FindSem(s.sems, p.semId);
    OwnSemFound(s, 0);
    PostLeavesOthers(s, p.semId);
    var s1 := if SemValue(s, p.semId) == 0 then Post(s, p.semId) else s;
    SameFind(s.sems, s1.sems, p.semId);
    assert forall k :: 0 <= k < |s.sems| && k != own ==> s1.sems[k] == s.sems[k];
    assert FreeHead(s).sems == Without(s1.sems, own);
  }

  // ---------------------------------------------------------------- a run that gets there

  /** The processes of the run below: init, and the one that is killed while it waits. */
  function InitPcb(): Pcb { Pcb(2, READY, 1, 4, NO_SEM) }

  function Waiter(state: ProcessState, waitsOn: int): Pcb { Pcb(3, state, 2, 5, waitsOn) }

  /** A state of the run below: blocked is the queue of semaphore 1, own are the semaphores after the first five. */
  function During(procs: seq<Pcb>, mode: Mode, cycles: int, readyCount: int, pidCounter: int,
                  blocked: seq<int>, own: seq<Sem>, semCounter: int): State {
    State(procs, mode, cycles, readyCount, pidCounter,
          [Sem(0, 1, [], 1, ""), Sem(1, 0, blocked, 1, ""), Sem(2, 1024, [], 1, ""),
           Sem(3, 0, [], 1, ""), Sem(4, 0, [], 1, "")] + own,
          semCounter, Pcb(1, READY, 1, 3, NO_SEM), 2, -1)
  }

  function OwnSem(value: int): Sem { Sem(5, value, [], 1, "") }

  lemma Boots(s: State)
    requires Inv(s) && s == AfterInitScheduler(BootSems())
    ensures Legal(s, Tick) && Step(s, Tick) == During([InitPcb()], Running, 1, 1, 3, [], [], 5)
  {
    hide Inv;
    assert s.sems == During([InitPcb()], Running, 1, 1, 3, [], [], 5).sems;
  }

  lemma Starts(s: State)
    requires Inv(s) && s == During([InitPcb()], Running, 1, 1, 3, [], [], 5)
    ensures Legal(s, StartTask(true))
    ensures Step(s, StartTask(true)) == During([InitPcb(), Waiter(READY, NO_SEM)], Running, 1, 2, 4, [], [OwnSem(0)], 6)
  {
    hide Inv;
    assert forall k, i :: !WaitsAt(s, k, i, s.pidCounter);
    assert Start(s, true).sems == During([InitPcb(), Waiter(READY, NO_SEM)], Running, 1, 2, 4, [], [OwnSem(0)], 6).sems;
  }

  lemma Yields(s: State)
    requires Inv(s) && s == During([InitPcb(), Waiter(READY, NO_SEM)], Running, 1, 2, 4, [], [OwnSem(0)], 6)
    ensures Legal(s, YieldCall) && Step(s, YieldCall) ==
            During([Waiter(READY, NO_SEM), InitPcb()], Running, 2, 2, 4, [], [OwnSem(0)], 6)
  {
    hide Inv;
    assert Rotate(s.procs) == [Waiter(READY, NO_SEM), InitPcb()];
  }

  lemma Waits(s: State)
    requires Inv(s) && s == During([Waiter(READY, NO_SEM), InitPcb()], Running, 2, 2, 4, [], [OwnSem(0)], 6)
    ensures Legal(s, SemWait(1))
    ensures Step(s, SemWait(1)) == During([InitPcb(), Waiter(BLOCKED, 1)], Running, 1, 1, 4, [3], [OwnSem(0)], 6)
  {
    hide Inv;
    FindsSem(s.sems);
    var t := During([Waiter(BLOCKED, 1), InitPcb()], Running, 2, 1, 4, [3], [OwnSem(0)], 6);
    assert [] + [3] == [3];
    assert WaitEntry(s, 1).1;
    assert WaitEntry(s, 1).0.sems == t.sems;
    assert WaitEntry(s, 1).0.procs == t.procs;
    assert WaitEntry(s, 1).0 == t;
    assert Rotate(t.procs) == [InitPcb(), Waiter(BLOCKED, 1)];
  }

  lemma FindsSem(sems: seq<Sem>)
    requires |sems| >= 5 && forall k :: 0 <= k < |sems| ==> sems[k].id == k
    ensures FindSem(sems, 1) == 1
    ensures |sems| > 5 ==> FindSem(sems, 5) == 5
  {
    assert sems[1].id == 1;
    assert |sems| > 5 ==> sems[5].id == 5;
  }

  lemma Kills(s: State)
    requires Inv(s) && s == During([InitPcb(), Waiter(BLOCKED, 1)], Running, 1, 1, 4, [3], [OwnSem(0)], 6)
    ensures Legal(s, KillTask(3))
    ensures Step(s, KillTask(3)) == During([InitPcb(), Waiter(EXITED, 1)], Running, 1, 1, 4, [3], [OwnSem(1)], 6)
  {
    hide Inv;
    FindsSem(s.sems);
    assert FindPid(s.procs, 3) == 1;
    var t := During([InitPcb(), Waiter(EXITED, 1)], Running, 1, 1, 4, [3], [OwnSem(1)], 6);
    assert Post(s, 5).sems == t.sems;
    assert ChangeState(s, 3, EXITED).0.procs == t.procs;
  }

  lemma Collects(s: State)
    requires Inv(s) && s == During([InitPcb(), Waiter(EXITED, 1)], Running, 1, 1, 4, [3], [OwnSem(1)], 6)
    ensures Legal(s, WaitPid(3))
    ensures Step(s, WaitPid(3)) == During([InitPcb(), Waiter(TERMINATED, 1)], Running, 1, 1, 4, [3], [OwnSem(0)], 6)
  {
    hide Inv;
    FindsSem(s.sems);
    assert FindPid(s.procs, 3) == 1;
    var t := During([InitPcb(), Waiter(TERMINATED, 1)], Running, 1, 1, 4, [3], [OwnSem(0)], 6);
    assert WaitEntry(s, 5).0.sems == t.sems;
    assert ChangeState(WaitEntry(s, 5).0, 3, TERMINATED).0.procs == t.procs;
  }

  lemma Frees(s: State)
    requires Inv(s) && s == During([InitPcb(), Waiter(TERMINATED, 1)], Running, 1, 1, 4, [3], [OwnSem(0)], 6)
    ensures Legal(s, YieldCall) && Step(s, YieldCall) == During([InitPcb()], Running, 1, 1, 3, [3], [], 6)
  {
    hide Inv;
    var m := During([Waiter(TERMINATED, 1), InitPcb()], Running, 0, 1, 4, [3], [OwnSem(0)], 6);
    assert Rotate(s.procs) == m.procs;
    FindsSem(m.sems);
    var p := During([Waiter(TERMINATED, 1), InitPcb()], Running, 0, 1, 4, [3], [OwnSem(1)], 6);
    assert Post(m, 5).sems == p.sems;
    FindsSem(p.sems);
    assert FreeHead(m).sems == During([InitPcb()], Running, 0, 1, 3, [3], [], 6).sems;
    assert FreeHead(m).procs == [InitPcb()];
  }

  /** From boot: init starts a process, which waits on a semaphore and is killed and collected
      there; when it is freed the counter steps back to its pid, which the queue still holds.
      The next process gets that pid, and the next post of the semaphore is lost on it. */
  lemma ReuseIsReached(foreground: bool) returns (states: seq<State>, ops: seq<Op>)
    ensures IsRun(states, ops) && states[0] == AfterInitScheduler(BootSems()) && |ops| == 7
    ensures var s := states[7];
      var s' := Start(s, foreground);
      && WaitsAt(s, 1, 0, s.pidCounter)
      && Swallowed(s', Drain(s', 1), 1)
  {
    hide Inv, Step, Legal;
    var s0 := AfterInitScheduler(BootSems());
    var s1 := During([InitPcb()], Running, 1, 1, 3, [], [], 5);
    var s2 := During([InitPcb(), Waiter(READY, NO_SEM)], Running, 1, 2, 4, [], [OwnSem(0)], 6);
    var s3 := During([Waiter(READY, NO_SEM), InitPcb()], Running, 2, 2, 4, [], [OwnSem(0)], 6);
    var s4 := During([InitPcb(), Waiter(BLOCKED, 1)], Running, 1, 1, 4, [3], [OwnSem(0)], 6);
    var s5 := During([InitPcb(), Waiter(EXITED, 1)], Running, 1, 1, 4, [3], [OwnSem(1)], 6);
    var s6 := During([InitPcb(), Waiter(TERMINATED, 1)], Running, 1, 1, 4, [3], [OwnSem(0)], 6);
    var s7 := During([InitPcb()], Running, 1, 1, 3, [3], [], 6);
    AfterInitSchedulerInv(BootSems());
    Boots(s0);
    Starts(s1);
    Yields(s2);
    Waits(s3);
    Kills(s4);
    Collects(s5);
    Frees(s6);
    ReuseSwallowsPost(s7, foreground, 1, 0);
    states, ops := [s0, s1, s2, s3, s4, s5, s6, s7],
                   [Tick, StartTask(true), YieldCall, SemWait(1), KillTask(3), WaitPid(3), YieldCall];
  }
}

/** The life of a process over whole runs. Pids can be reused once freeProcess has
    decremented their counter, so a process is recognised by its semaphore, whose id never
    comes back. */
module Lifecycle {
  import opened Wrappers
  import opened KernelModel
  import opened KernelInvariant
  import opened KernelSteps
  import opened KernelRuns

  /** EXITED and TERMINATED are never left for READY or BLOCKED. */
  predicate Later(a: ProcessState, b: ProcessState) {
    match a
    case READY => true
    case BLOCKED => true
    case EXITED => b == EXITED || b == TERMINATED
    case TERMINATED => b == TERMINATED
  }

  /** The process that owns this semaphore, if it is there at all, is dead. */
  ghost predicate OwnerDead(s: State, id: int) {
    forall c :: c in s.procs && c.semId == id ==> Dead(c.state)
  }

  /** q in s' is p of s, later in its life; if p waited, it still waits on the same
      semaphore unless that is not the semaphore of a live process. */
  ghost predicate Continues(p: Pcb, q: Pcb, s': State) {
    && p.pid == q.pid && p.semId == q.semId && Later(p.state, q.state)
    && (p.waitsOn == NO_SEM || q.waitsOn == p.waitsOn || OwnerDead(s', p.waitsOn))
  }

  ghost predicate Origin(s: State, s': State, q: Pcb) {
    exists p :: p in s.procs && Continues(p, q, s')
  }

  ghost predicate Evolves(s: State, s': State) {
    && s.semCounter <= s'.semCounter
    && forall q :: q in s'.procs && q.semId < s.semCounter ==> Origin(s, s', q)
  }

  lemma EvolvesTransitive(s: State, m: State, t: State)
    requires Evolves(s, m) && Evolves(m, t) && WaitersQueued(s)
    ensures Evolves(s, t)
  {
    forall q | q in t.procs && q.semId < s.semCounter ensures Origin(s, t, q) {
      assert Origin(m, t, q);
      var r :| r in m.procs && Continues(r, q, t);
      assert Origin(s, m, r);
      var p :| p in s.procs && Continues(p, r, m);
      if p.waitsOn != NO_SEM && OwnerDead(m, p.waitsOn) {
        assert p.waitsOn < s.semCounter by { var j :| 0 <= j < |s.procs| && s.procs[j] == p; }
        forall c | c in t.procs && c.semId == p.waitsOn ensures Dead(c.state) {
          assert Origin(m, t, c);
        }
      }
      assert Continues(p, q, t);
    }
  }

  /** Every process of s' is one of s, unchanged or changed in an allowed way. */
  lemma EvolvesByOrigin(s: State, s': State, from: seq<nat>)
    requires s.semCounter <= s'.semCounter && |from| == |s'.procs|
    requires forall i :: 0 <= i < |from| && s'.procs[i].semId < s.semCounter ==>
               from[i] < |s.procs| && Continues(s.procs[from[i]], s'.procs[i], s')
    ensures Evolves(s, s')
  {
    forall q | q in s'.procs && q.semId < s.semCounter ensures Origin(s, s', q) {
      var i :| 0 <= i < |s'.procs| && s'.procs[i] == q;
      assert s.procs[from[i]] in s.procs;
    }
  }

  lemma EvolvesSame(s: State, s': State)
    requires s'.procs == s.procs && s.semCounter <= s'.semCounter
    ensures Evolves(s, s')
  {
    EvolvesByOrigin(s, s', seq(|s.procs|, i requires 0 <= i < |s.procs| => i));
  }

  lemma EvolvesRotate(s: State, s': State)
    requires s.procs != [] && s'.procs == Rotate(s.procs) && s.semCounter <= s'.semCounter
    ensures Evolves(s, s')
  {
    RotatedAt(s.procs);
    EvolvesByOrigin(s, s', seq(|s.procs|, i requires 0 <= i < |s.procs| => if i + 1 < |s.procs| then i + 1 else 0));
  }

  /** A post makes at most waiters of that very semaphore READY. */
  lemma DrainWakesWaiters(s: State, k: nat, exempt: int)
    requires InvExcept(s, exempt) && k < |s.sems|
    ensures |Drain(s, k).procs| == |s.procs|
    ensures forall j :: 0 <= j < |s.procs| ==>
              || Drain(s, k).procs[j] == s.procs[j]
              || (s.procs[j].waitsOn == s.sems[k].id && !Dead(s.procs[j].state)
                  && Drain(s, k).procs[j] == s.procs[j].(state := READY, waitsOn := NO_SEM))
  {
    hide TablesOk, Drain, WaitsOnce, WaitersQueued, IdleNeverWaits;
    PostWakesFirstLive(s, k);
    DrainKeepsPids(s, k);
    if w: nat :| FirstLive(s, k, w) {
      var i := FindPid(s.procs, s.sems[k].blocked[w]);
      assert WaitsAt(s, k, w, s.procs[i].pid);
      assert Drain(s, k) == Wake(s, k, w);
    }
  }

  lemma EvolvesPost(s: State, id: int)
    requires Inv(s) && Public(s, id)
    ensures Evolves(s, Post(s, id))
  {
    var k := FindSem(s.sems, id);
    PostWakes(s, id);
    if k == |s.sems| {
      EvolvesSame(s, s);
    } else {
      DrainWakesWaiters(s, k, NO_SEM);
      var s' := Post(s, id);
      assert OwnerDead(s', id);
      EvolvesByOrigin(s, s', seq(|s.procs|, i requires 0 <= i < |s.procs| => i));
    }
  }

  lemma FreeHeadProcs(s: State)
    requires Inv(s) && |s.procs| > 1 && s.procs[0].state == TERMINATED
    ensures FreeHead(s).semCounter == s.semCounter && |FreeHead(s).procs| == |s.procs| - 1
    ensures forall j :: 0 <= j < |s.procs| - 1 ==>
              || FreeHead(s).procs[j] == s.procs[j + 1]
              || (s.procs[j + 1].waitsOn == s.procs[0].semId && !Dead(s.procs[j + 1].state)
                  && FreeHead(s).procs[j] == s.procs[j + 1].(state := READY, waitsOn := NO_SEM))
  {
    var id := s.procs[0].semId;
    hide Inv, Drain, Postable;
    HeadPostable(s);
    PostWakes(s, id);
    DrainWakesWaiters(s, FindSem(s.sems, id), NO_SEM);
  }

  lemma OnlyHeadOwns(s: State)
    requires OwnSems(s, NO_SEM) && s.procs != []
    ensures forall j :: 0 < j < |s.procs| ==> s.procs[j].semId != s.procs[0].semId
  {}

  lemma EvolvesFreeHead(s: State)
    requires Inv(s) && |s.procs| > 1 && s.procs[0].state == TERMINATED
    ensures Evolves(s, FreeHead(s))
  {
    var s' := FreeHead(s);
    TablesParts(s);
    OnlyHeadOwns(s);
    FreeHeadProcs(s);
    hide Inv, FreeHead, PidsOk, SemIdsOk, ValuesOk, WaitsOnce, WaitersStopped, WaitersQueued, OwnSems, Bounds, Counted;
    assert OwnerDead(s', s.procs[0].semId);
    EvolvesByOrigin(s, s', seq(|s'.procs|, i requires 0 <= i < |s'.procs| => i + 1));
  }

  lemma {:induction false} EvolvesSearch(s: State)
    requires Inv(s) && FirstReady(s.procs) < |s.procs| && s.mode.Running?
    ensures Evolves(s, Search(s))
    decreases FirstReady(s.procs)
  {
    TablesParts(s);
    hide Inv, FreeHead, WaitersQueued;
    if s.procs[0].state == READY {
      EvolvesSame(s, s);
    } else if s.procs[0].state == TERMINATED {
      FreeHeadKeepsInv(s);
      FreeHeadWakes(s);
      WokenFirstReady(s.procs[1..], FreeHead(s).procs);
      EvolvesFreeHead(s);
      EvolvesSearch(FreeHead(s));
      EvolvesTransitive(s, FreeHead(s), Search(s));
    } else {
      RotateInv(s);
      RotateFirstReady(s.procs);
      var m := s.(procs := Rotate(s.procs));
      EvolvesRotate(s, m);
      EvolvesSearch(m);
      EvolvesTransitive(s, m, Search(s));
    }
  }

  lemma EvolvesSchedule(s: State)
    requires Inv(s)
    ensures Evolves(s, Schedule(s))
  {
    TablesParts(s);
    if KeepsRunning(s) {
      EvolvesSame(s, Schedule(s));
    } else {
      RequeuedReady(s);
      if s.readyCount > 0 {
        var m := s.(procs := Requeued(s), mode := Running);
        if s.mode.Running? { EvolvesRotate(s, m); RotateKeepsInv(s, Running, s.cycles); }
        else { EvolvesSame(s, m); ModeKeepsInv(s, Running, s.cycles); }
        EvolvesSearch(m);
        EvolvesTransitive(s, m, Search(m));
        EvolvesSameAfter(s, Search(m), Schedule(s));
      } else if s.mode.Running? {
        EvolvesRotate(s, Schedule(s));
      } else {
        EvolvesSame(s, Schedule(s));
      }
    }
  }

  lemma EvolvesSameAfter(s: State, m: State, t: State)
    requires Evolves(s, m) && t.procs == m.procs && t.semCounter == m.semCounter
    ensures Evolves(s, t)
  {
    forall q | q in t.procs && q.semId < s.semCounter ensures Origin(s, t, q) {
      assert Origin(s, m, q);
      var p :| p in s.procs && Continues(p, q, m);
      assert Continues(p, q, t);
    }
  }

  lemma EvolvesChangeState(s: State, pid: int, st: ProcessState)
    requires Inv(s) && (Dead(st) || WaitsNowhere(s, pid))
    ensures Evolves(s, ChangeState(s, pid, st).0)
  {
    hide InvExcept, Drain, Evolves;
    var i := FindPid(s.procs, pid);
    if Refuses(s, i, st) {
      EvolvesSame(s, s);
    } else if st == EXITED {
      EvolvesExit(s, i);
    } else {
      var s' := SetState(s, i, st);
      EvolvesByOrigin(s, s', seq(|s.procs|, j requires 0 <= j < |s.procs| => j));
    }
  }

  /** An exit: first the post of the process's own semaphore, then the new state. */
  lemma EvolvesExit(s: State, i: nat)
    requires Inv(s) && i < |s.procs| && !Dead(s.procs[i].state)
    ensures |Post(s, s.procs[i].semId).procs| == |s.procs|
    ensures Evolves(s, SetState(Post(s, s.procs[i].semId), i, EXITED))
  {
    hide InvExcept, Drain, Evolves;
    var id := s.procs[i].semId;
    TablesParts(s);
    OwnSemFound(s, i);
    PostWakes(s, id);
    DrainWakesWaiters(s, FindSem(s.sems, id), NO_SEM);
    var s' := SetState(Post(s, id), i, EXITED);
    assert forall j :: 0 <= j < |s.procs| && j != i ==> s.procs[j].semId != id;
    assert OwnerDead(s', id);
    EvolvesByOrigin(s, s', seq(|s.procs|, j requires 0 <= j < |s.procs| => j));
  }

  lemma EvolvesWaitEntry(s: State, id: int)
    requires Inv(s) && Legal(s, SemWait(id))
    ensures Evolves(s, WaitEntry(s, id).0)
  {
    var s' := WaitEntry(s, id).0;
    TablesParts(s);
    if NoUnit(s, id) { FindPidUnique(s.procs, 0); }
    EvolvesByOrigin(s, s', seq(|s.procs|, j requires 0 <= j < |s.procs| => j));
  }

  lemma EvolvesBefore(s: State, op: Op)
    requires Inv(s) && Legal(s, op)
    ensures Evolves(s, Before(s, op))
  {
    hide Inv, WaitsNowhere, Public, WaitEntry, ChangeState, Evolves, PidsOk, SemIdsOk, ValuesOk, WaitsOnce,
         WaitersStopped, WaitersQueued, OwnSems, Bounds, Counted;
    match op
    case Tick => EvolvesSame(s, s);
    case YieldCall => EvolvesSame(s, Before(s, op));
    case StartTask(foreground) =>
      EvolvesByOrigin(s, Start(s, foreground), seq(|s.procs| + 1, j requires 0 <= j < |s.procs| + 1 => j));
    case KillTask(pid) =>
      if pid == s.initPid || pid == s.userlandPid { EvolvesSame(s, s); } else { EvolvesChangeState(s, pid, EXITED); }
    case Terminate(pid) => EvolvesChangeState(s, pid, TERMINATED);
    case NiceCall(pid, priority) =>
      EvolvesByOrigin(s, Nice(s, pid, priority), seq(|s.procs|, j requires 0 <= j < |s.procs| => j));
    case BlockTask(pid) => EvolvesChangeState(s, pid, BLOCKED);
    case ResumeTask(pid) => EvolvesChangeState(s, pid, READY);
    case SemOpen(name, value) => EvolvesSame(s, Open(s, name, value));
    case SemInit(value) => EvolvesSame(s, Create(s, value, ""));
    case SemClose(id) => EvolvesSame(s, Close(s, id));
    case SemWait(id) => EvolvesWaitEntry(s, id);
    case SemPost(id) => EvolvesPost(s, id);
    case WaitPid(pid) =>
      var i := FindPid(s.procs, pid);
      if i == |s.procs| {
        EvolvesSame(s, s);
      } else {
        var r := WaitEntry(s, s.procs[i].semId);
        EvolvesWaitEntry(s, s.procs[i].semId);
        WaitEntryKeepsInv(s, s.procs[i].semId);
        if !r.1 {
          EvolvesChangeState(r.0, pid, TERMINATED);
          TablesParts(s);
          EvolvesTransitive(s, r.0, ChangeState(r.0, pid, TERMINATED).0);
        }
      }
  }

  lemma EvolvesStep(s: State, op: Op)
    requires Inv(s) && Legal(s, op)
    ensures Evolves(s, Step(s, op))
  {
    EvolvesBefore(s, op);
    if CallsScheduler(s, op) {
      EvolvesSchedule(Before(s, op));
      TablesParts(s);
      EvolvesTransitive(s, Before(s, op), Schedule(Before(s, op)));
    }
  }

  lemma {:induction false} EvolvesRun(states: seq<State>, ops: seq<Op>, i: nat, j: nat)
    requires IsRun(states, ops) && i <= j <= |ops|
    ensures Evolves(states[i], states[j])
    decreases j
  {
    hide Inv, Evolves, PidsOk, SemIdsOk, ValuesOk, WaitsOnce, WaitersStopped, WaitersQueued, OwnSems, Bounds, Counted;
    RunKeepsInv(states, ops, i);
    if i == j {
      EvolvesSame(states[i], states[i]);
    } else {
      EvolvesRun(states, ops, i, j - 1);
      RunKeepsInv(states, ops, j - 1);
      assert Next(states[j - 1], ops[j - 1], states[j - 1 + 1]);
      EvolvesStep(states[j - 1], ops[j - 1]);
      TablesParts(states[i]);
      EvolvesTransitive(states[i], states[j - 1], states[j]);
    }
  }

  /** A process seen at two points of a run has kept its pid, and once EXITED or TERMINATED
      it has not become READY or BLOCKED again. */
  lemma DeadStayDead(states: seq<State>, ops: seq<Op>, i: nat, j: nat, p: Pcb, q: Pcb)
    requires IsRun(states, ops) && i <= j <= |ops|
    requires p in states[i].procs && q in states[j].procs && p.semId == q.semId
    ensures p.pid == q.pid && Later(p.state, q.state)
  {
    EvolvesRun(states, ops, i, j);
    RunKeepsInv(states, ops, i);
    TablesParts(states[i]);
    OwnIdsBelow(states[i]);
    var r :| r in states[i].procs && Continues(r, q, states[j]);
    SameSemSamePcb(states[i], p, r);
  }

  lemma SameSemSamePcb(s: State, p: Pcb, r: Pcb)
    requires OwnSems(s, NO_SEM) && p in s.procs && r in s.procs && p.semId == r.semId
    ensures p == r
  {
    var a :| 0 <= a < |s.procs| && s.procs[a] == p;
    var b :| 0 <= b < |s.procs| && s.procs[b] == r;
    assert a == b;
  }

  /** waitpid on a process that has not exited always blocks the caller ... */
  lemma WaitPidBlocks(s: State, pid: int)
    requires Inv(s) && CurrentReady(s)
    requires FindPid(s.procs, pid) < |s.procs| && !Dead(s.procs[FindPid(s.procs, pid)].state)
    ensures CallsScheduler(s, WaitPid(pid))
    ensures var r := WaitEntry(s, s.procs[FindPid(s.procs, pid)].semId).0;
      r.procs[0].state == BLOCKED && r.procs[0].waitsOn == s.procs[FindPid(s.procs, pid)].semId
  {
    var i := FindPid(s.procs, pid);
    OwnSemFound(s, i);
    TablesParts(s);
    FindPidUnique(s.procs, 0);
  }

  /** ... and as long as that process has not exited or been terminated, nothing in any run
      releases the caller: if both are still there, the caller is BLOCKED (or was killed). */
  lemma WaiterReleasedOnlyAfterExit(states: seq<State>, ops: seq<Op>, i: nat, j: nat, w: Pcb, w': Pcb, c: Pcb)
    requires IsRun(states, ops) && i <= j <= |ops|
    requires w in states[i].procs && w.waitsOn == c.semId
    requires c in states[j].procs && !Dead(c.state)
    requires w' in states[j].procs && w'.semId == w.semId && !Dead(w'.state)
    ensures w'.state == BLOCKED && w'.waitsOn == c.semId
  {
    EvolvesRun(states, ops, i, j);
    RunKeepsInv(states, ops, i);
    RunKeepsInv(states, ops, j);
    TablesParts(states[i]);
    TablesParts(states[j]);
    OwnIdsBelow(states[i]);
    OwnIdsBelow(states[j]);
    assert Origin(states[i], states[j], w');
    var r :| r in states[i].procs && Continues(r, w', states[j]);
    SameSemSamePcb(states[i], w, r);
    assert w'.waitsOn == c.semId;
    var a :| 0 <= a < |states[j].procs| && states[j].procs[a] == w';
    assert states[j].procs[a].state != READY;
  }

  // ---------------------------------------------------------------- scheduleTask loses no process

  /** The process of s with this semaphore is in s', at most woken up. */
  ghost predicate Remains(p: Pcb, s': State) {
    exists q :: q in s'.procs && (q == p || (!Dead(p.state) && q == p.(state := READY, waitsOn := NO_SEM)))
  }

  ghost predicate KeepsLive(s: State, s': State) {
    forall p :: p in s.procs && p.state != TERMINATED ==> Remains(p, s')
  }

  lemma KeepsLiveTransitive(s: State, m: State, t: State)
    requires KeepsLive(s, m) && KeepsLive(m, t)
    ensures KeepsLive(s, t)
  {
    forall p | p in s.procs && p.state != TERMINATED ensures Remains(p, t) {
      var q :| q in m.procs && (q == p || (!Dead(p.state) && q == p.(state := READY, waitsOn := NO_SEM)));
      assert Remains(q, t);
    }
  }

  lemma KeepsLiveRotate(s: State, m: State)
    requires s.procs != [] && m.procs == Rotate(s.procs)
    ensures KeepsLive(s, m)
  {
    forall p | p in s.procs ensures p in m.procs {
      var j :| 0 <= j < |s.procs| && s.procs[j] == p;
      assert m.procs[if j == 0 then |s.procs| - 1 else j - 1] == p;
    }
  }

  lemma {:induction false} SearchKeepsLive(s: State)
    requires Inv(s) && FirstReady(s.procs) < |s.procs| && s.mode.Running?
    ensures KeepsLive(s, Search(s))
    decreases FirstReady(s.procs)
  {
    hide Inv, FreeHead;
    if s.procs[0].state == READY {
    } else if s.procs[0].state == TERMINATED {
      FreeHeadKeepsInv(s);
      FreeHeadWakes(s);
      WokenFirstReady(s.procs[1..], FreeHead(s).procs);
      FreeHeadProcs(s);
      forall p | p in s.procs && p.state != TERMINATED ensures Remains(p, FreeHead(s)) {
        var j :| 0 <= j < |s.procs| && s.procs[j] == p;
        assert FreeHead(s).procs[j - 1] in FreeHead(s).procs;
      }
      SearchKeepsLive(FreeHead(s));
      KeepsLiveTransitive(s, FreeHead(s), Search(s));
    } else {
      RotateInv(s);
      RotateFirstReady(s.procs);
      KeepsLiveRotate(s, s.(procs := Rotate(s.procs)));
      SearchKeepsLive(s.(procs := Rotate(s.procs)));
      KeepsLiveTransitive(s, s.(procs := Rotate(s.procs)), Search(s));
    }
  }

  /** Whom scheduleTask leaves in front. */
  lemma ScheduleDispatches(s: State)
    requires Inv(s)
    ensures Schedule(s).mode.Running? <==>
            (s.mode.Running? && KeepsRunning(s)) || (!KeepsRunning(s) && s.readyCount > 0)
    ensures Schedule(s).mode.Running? ==> Schedule(s).procs != [] && Schedule(s).procs[0].state == READY
    ensures !KeepsRunning(s) && s.readyCount > 0 ==>
            Inv(s.(procs := Requeued(s), mode := Running)) && KeepsLive(s, Schedule(s))
  {
    TablesParts(s);
    hide Inv, InvExcept, PidsOk, SemIdsOk, ValuesOk, WaitsOnce, WaitersStopped, WaitersQueued, OwnSems, Evolves;
    if !KeepsRunning(s) {
      RequeuedReady(s);
      if s.mode.Running? { KeepsLiveRotate(s, s.(procs := Requeued(s))); }
      if s.readyCount > 0 {
        var m := s.(procs := Requeued(s), mode := Running);
        if s.mode.Running? { RotateKeepsInv(s, Running, s.cycles); } else { ModeKeepsInv(s, Running, s.cycles); }
        SearchKeepsLive(m);
        KeepsLiveTransitive(s, m, Search(m));
      }
    }
  }

  /** scheduleTask loses only TERMINATED processes and adds none; the others keep everything
      but a wait that a freed process ended, and each is still there exactly once. */
  lemma ScheduleKeepsProcesses(s: State)
    requires Inv(s)
    ensures KeepsLive(s, Schedule(s)) && Evolves(s, Schedule(s)) && PidsOk(Schedule(s))
    ensures Schedule(s).semCounter == s.semCounter
    ensures Schedule(s).mode.Running? <==>
            (s.mode.Running? && KeepsRunning(s)) || (!KeepsRunning(s) && s.readyCount > 0)
    ensures Schedule(s).mode.Running? ==> Schedule(s).procs != [] && Schedule(s).procs[0].state == READY
  {
    TablesParts(s);
    EvolvesSchedule(s);
    ScheduleKeepsInv(s);
    TablesParts(Schedule(s));
    ScheduleDispatches(s);
    hide Inv, InvExcept, PidsOk, SemIdsOk, ValuesOk, WaitsOnce, WaitersStopped, WaitersQueued, OwnSems, Evolves;
    if !KeepsRunning(s) && s.readyCount == 0 && s.mode.Running? {
      KeepsLiveRotate(s, s.(procs := Requeued(s)));
    }
  }
}

/** The scheduler and the semaphores as they run: a queue of processes beside the current
    one, and a table of semaphores, updated in place. */
module Kernel {
  import opened Wrappers
  import opened KernelModel
  import opened KernelInvariant
  import opened KernelSteps
  import KernelRuns
  import SemaphoreRuns

  class Kernel {
    var queue: seq<Pcb>
    var current: Option<Pcb>
    var idle: Pcb
    var currentCycles: int
    var readyCount: int
    var pidCounter: int
    var semQueue: seq<Sem>
    var semId: int
    var initPid: int
    var userlandPid: int

    ghost function State(): State
      reads this
    {
      var mode := if current.None? then NotStarted else if current.value.pid == idle.pid then Idling else Running;
      KernelModel.State(if mode.Running? then [current.value] + queue else queue, mode, currentCycles, readyCount,
                        pidCounter, semQueue, semId, idle, initPid, userlandPid)
    }

    /** The idle process is never in the queue, nor in the queue of a semaphore. */
    ghost predicate Linked()
      reads this
    {
      && (current.Some? && current.value.pid == idle.pid ==> current.value == idle)
      && (forall i :: 0 <= i < |queue| ==> queue[i].pid != idle.pid)
      && IdleNeverWaits(State())
    }

    ghost predicate Valid()
      reads this
    {
      Linked() && Inv(State())
    }

    /** initScheduler: the idle process is kept apart, init waits in the queue. Semaphores
        that were created before it are there already. */
    constructor InitScheduler(earlier: seq<Sem>)
      requires KernelRuns.JustCreated(earlier)
      ensures Valid() && State() == KernelRuns.AfterInitScheduler(earlier)
    {
      semQueue := earlier + [Sem(|earlier|, 0, [], 1, ""), Sem(|earlier| + 1, 0, [], 1, "")];
      semId := |earlier| + 2;
      idle := Pcb(1, READY, 1, |earlier|, NO_SEM);
      queue := [Pcb(2, READY, 1, |earlier| + 1, NO_SEM)];
      pidCounter, readyCount, currentCycles := 3, 1, 0;
      initPid, userlandPid := 2, -1;
      current := None;
      new;
      KernelRuns.AfterInitSchedulerInv(earlier);
      InvLinks();
    }

    /** What the invariant says about the idle process is what Linked asks for. */
    lemma InvLinks()
      requires Inv(State()) && (current.Some? && current.value.pid == idle.pid ==> current.value == idle)
      ensures Valid()
    {
      TablesParts(State());
      var first := if State().mode.Running? then 1 else 0;
      forall i | 0 <= i < |queue| ensures queue[i].pid != idle.pid {
        assert State().procs[i + first] == queue[i];
      }
    }

    // -------------------------------------------------------------- lookups

    /** getProcess: walk the queue. */
    method GetProcess(pid: int) returns (i: nat)
      ensures i == FindPid(queue, pid)
    {
      i := 0;
      while i < |queue| && queue[i].pid != pid
        invariant i <= |queue| && forall j :: 0 <= j < i ==> queue[j].pid != pid
      {
        i := i + 1;
      }
    }

    /** find with findSemCondition: walk the semaphores. */
    method FindSemaphore(id: int) returns (k: nat)
      ensures k == FindSem(semQueue, id)
    {
      k := 0;
      while k < |semQueue| && semQueue[k].id != id
        invariant k <= |semQueue| && forall j :: 0 <= j < k ==> semQueue[j].id != id
      {
        k := k + 1;
      }
    }

    lemma FindPidInState(pid: int)
      requires current.Some?
      ensures FindPid(State().procs, pid) ==
              if !State().mode.Running? then FindPid(queue, pid)
              else if current.value.pid == pid then 0
              else 1 + FindPid(queue, pid)
    {
      if State().mode.Running? { assert State().procs[1..] == queue; }
    }

    // -------------------------------------------------------------- states

    /** changeState. READY needs no post, so the recursion through semPost is one deep. */
    method ChangeState(pid: int, newState: ProcessState) returns (ok: bool)
      requires Linked() && current.Some? && !KernelRuns.IsIdle(State(), pid)
      modifies this
      ensures Linked() && (State(), ok) == KernelModel.ChangeState(old(State()), pid, newState)
      ensures current.Some? && (old(current.value.pid) == idle.pid <==> current.value.pid == idle.pid)
              && idle == old(idle)
      decreases if newState == EXITED then 2 else 0, 0
    {
      hide FindPid, Drain;
      FindPidInState(pid);
      ghost var s := State();
      var isCurrent := pid == current.value.pid;
      var i := 0;
      if !isCurrent {
        i := GetProcess(pid);
        if i == |queue| { return false; }
      }
      var was := if isCurrent then current.value.state else queue[i].state;
      if (was == EXITED && newState != TERMINATED) || was == TERMINATED {
        return false;
      }
      PostWakes(s, if isCurrent then current.value.semId else queue[i].semId);
      PostKeepsPids(s, if isCurrent then current.value.semId else queue[i].semId);
      if newState == EXITED {
        var posted := SemPost(if isCurrent then current.value.semId else queue[i].semId);
      }
      SetProcessState(isCurrent, i, newState);
      return true;
    }

    /** The end of changeState: count, then write the state of the process found. */
    method SetProcessState(isCurrent: bool, i: nat, newState: ProcessState)
      requires Linked() && current.Some? && (!isCurrent ==> i < |queue|)
               && (isCurrent ==> current.value.pid != idle.pid)
      modifies this
      ensures Linked() && current.Some? && idle == old(idle) && current.value.pid == old(current.value.pid)
      ensures var j := if isCurrent then 0 else if old(State()).mode.Running? then 1 + i else i;
        j < |old(State()).procs| && State() == SetState(old(State()), j, newState)
    {
      ghost var s := State();
      var process := if isCurrent then current.value else queue[i];
      if process.state != READY && newState == READY {
        readyCount := readyCount + 1;
      }
      if process.state == READY && newState != READY {
        readyCount := readyCount - 1;
      }
      process := process.(state := newState, waitsOn := if newState == READY then NO_SEM else process.waitsOn);
      if isCurrent {
        current := Some(process);
      } else {
        queue := queue[i := process];
      }
      assert forall k, l, pid :: WaitsAt(State(), k, l, pid) <==> WaitsAt(s, k, l, pid);
    }

    method ResumeTask(pid: int) returns (ok: bool)
      requires Linked() && current.Some? && !KernelRuns.IsIdle(State(), pid)
      modifies this
      ensures Linked() && (State(), ok) == Resume(old(State()), pid)
      ensures current.Some? && (old(current.value.pid) == idle.pid <==> current.value.pid == idle.pid)
              && idle == old(idle)
      decreases 0, 1
    {
      ok := ChangeState(pid, READY);
    }

    // -------------------------------------------------------------- semaphores

    method SemPost(id: int) returns (ok: bool)
      requires Linked() && current.Some?
      modifies this
      ensures Linked() && State() == Post(old(State()), id) && (ok <==> FindSem(old(semQueue), id) < |old(semQueue)|)
      ensures current.Some? && (old(current.value.pid) == idle.pid <==> current.value.pid == idle.pid)
              && idle == old(idle)
      decreases 1, 1
    {
      var k := FindSemaphore(id);
      if k == |semQueue| {
        return false;
      }
      hide Resume, Linked, FindSem;
      while |semQueue[k].blocked| > 0
        invariant Linked() && current.Some? && k < |semQueue| && idle == old(idle)
        invariant old(current.value.pid) == idle.pid <==> current.value.pid == idle.pid
        invariant Drain(State(), k) == Drain(old(State()), k)
        decreases |semQueue[k].blocked|
      {
        DrainUnfold(State(), k);
        var resumed := WakeNext(k);
        if resumed {
          return true;
        }
      }
      DrainUnfold(State(), k);
      AddOne(k);
      return true;
    }

    method AddOne(k: nat)
      requires Linked() && k < |semQueue|
      modifies this`semQueue
      ensures Linked() && State() == WithSem(old(State()), k, old(semQueue[k]).(value := old(semQueue[k]).value + 1))
    {
      ghost var s := State();
      semQueue := semQueue[k := semQueue[k].(value := semQueue[k].value + 1)];
      assert forall l, j, pid :: WaitsAt(State(), l, j, pid) <==> WaitsAt(s, l, j, pid);
    }

    /** One round of semPost's loop: the first waiter leaves the queue and is resumed. */
    method WakeNext(k: nat) returns (resumed: bool)
      requires Linked() && current.Some? && k < |semQueue| && |semQueue[k].blocked| > 0
      modifies this
      ensures Linked() && (State(), resumed) == Resume(Popped(old(State()), k), old(semQueue[k].blocked[0]))
      ensures current.Some? && (old(current.value.pid) == idle.pid <==> current.value.pid == idle.pid)
              && idle == old(idle)
      decreases 1, 0
    {
      ghost var s := State();
      var callerPID := semQueue[k].blocked[0];
      assert WaitsAt(s, k, 0, callerPID);
      semQueue := semQueue[k := semQueue[k].(blocked := semQueue[k].blocked[1..])];
      assert State() == Popped(s, k);
      forall l, j ensures !WaitsAt(State(), l, j, idle.pid) {
        assert !WaitsAt(s, l, if l == k then j + 1 else j, idle.pid);
      }
      resumed := ResumeTask(callerPID);
    }

    method SemValue(id: int) returns (value: int)
      ensures value == KernelModel.SemValue(State(), id)
    {
      var k := FindSemaphore(id);
      value := if k == |semQueue| then -1 else semQueue[k].value;
    }

    method SemClose(id: int) returns (ok: bool)
      requires Linked()
      modifies this`semQueue
      ensures Linked() && State() == Close(old(State()), id)
      ensures ok <==> FindSem(old(semQueue), id) < |old(semQueue)|
    {
      var k := FindSemaphore(id);
      if k == |semQueue| {
        return false;
      }
      ghost var s := State();
      if semQueue[k].name == "" || semQueue[k].attached == 1 {
        semQueue := Without(semQueue, k);
        forall l, j ensures !WaitsAt(State(), l, j, idle.pid) {
          assert !WaitsAt(s, if l < k then l else l + 1, j, idle.pid);
        }
      } else {
        semQueue := semQueue[k := semQueue[k].(attached := semQueue[k].attached - 1)];
        assert forall l, j, pid :: WaitsAt(State(), l, j, pid) <==> WaitsAt(s, l, j, pid);
      }
      return true;
    }

    /** createSem followed by the first attach. */
    method CreateSem(value: int, name: string) returns (id: int)
      requires Linked()
      modifies this`semQueue, this`semId
      ensures Linked() && State() == Create(old(State()), value, name) && id == old(semId)
    {
      ghost var s := State();
      id := semId;
      semId := semId + 1;
      semQueue := semQueue + [Sem(id, value, [], 1, name)];
      assert forall l, j, pid :: WaitsAt(State(), l, j, pid) <==> WaitsAt(s, l, j, pid);
    }

    method SemInit(value: int) returns (id: int)
      requires Valid() && KernelRuns.Legal(State(), KernelRuns.SemInit(value))
      modifies this`semQueue, this`semId
      ensures Valid() && State() == KernelRuns.Step(old(State()), KernelRuns.SemInit(value))
      ensures id == old(semId) && KernelModel.SemValue(State(), id) == value
    {
      ghost var s := State();
      CreateKeepsInv(s, value, "");
      SemaphoreRuns.CreatedWithValue(s, KernelRuns.SemInit(value), value);
      hide Inv, Linked, FindSem;
      id := CreateSem(value, "");
    }

    /** findSemName. */
    method FindSemName(name: string) returns (k: nat)
      ensures k == FindName(semQueue, name)
    {
      k := 0;
      while k < |semQueue| && !SameName(semQueue[k].name, name)
        invariant k <= |semQueue| && forall j :: 0 <= j < k ==> !SameName(semQueue[j].name, name)
      {
        k := k + 1;
      }
      FindNameIs(semQueue, name, k);
    }

    method SemOpen(name: string, value: int) returns (id: int)
      requires Valid() && KernelRuns.Legal(State(), KernelRuns.SemOpen(name, value))
      modifies this`semQueue, this`semId
      ensures Valid() && State() == KernelRuns.Step(old(State()), KernelRuns.SemOpen(name, value))
      ensures FindName(semQueue, name) < |semQueue| && semQueue[FindName(semQueue, name)].id == id
      // The value counts for a new semaphore only.
      ensures KernelModel.SemValue(State(), id) ==
              if FindName(old(semQueue), name) == |old(semQueue)| then value else KernelModel.SemValue(old(State()), id)
    {
      hide Inv, FindName, SameName, FindSem;
      ghost var s := State();
      OpenKeepsInv(s, name, value);
      OpenedValue(s, name, value);
      var k := FindSemName(name);
      NameFound(semQueue, name);
      if k == |semQueue| {
        id := CreateSem(value, name);
      } else {
        semQueue := semQueue[k := semQueue[k].(attached := semQueue[k].attached + 1)];
        id := semQueue[k].id;
        assert State() == Open(s, name, value);
        InvLinks();
      }
    }

    /** semWait up to the tick: take a unit, or enter the queue and block. */
    method EnterWait(id: int) returns (blocked: bool)
      requires Valid() && KernelRuns.Legal(State(), KernelRuns.SemWait(id))
      modifies this
      ensures Valid() && (State(), blocked) == WaitEntry(old(State()), id)
      ensures current.Some? && (old(current.value.pid) == idle.pid <==> current.value.pid == idle.pid)
              && idle == old(idle)
    {
      hide Inv, KernelModel.ChangeState;
      ghost var s := State();
      KernelRuns.SemWaitKeepsInv(s, id);
      var k := FindSemaphore(id);
      if k == |semQueue| {
        return false;
      }
      if semQueue[k].value > 0 {
        semQueue := semQueue[k := semQueue[k].(value := semQueue[k].value - 1)];
        assert State() == WaitEntry(s, id).0;
        InvLinks();
        return false;
      }
      blocked := JoinQueue(k, id);
      assert State() == WaitEntry(s, id).0;
      InvLinks();
    }

    /** The blocking half: the caller's pid enters the queue, and the caller stops. */
    method JoinQueue(k: nat, id: int) returns (blocked: bool)
      requires Linked() && current.Some? && current.value.pid != idle.pid && k < |semQueue|
      modifies this
      ensures var s := old(State());
        var joined := WithSem(s, k, s.sems[k].(blocked := s.sems[k].blocked + [s.procs[0].pid]));
        var r := KernelModel.ChangeState(joined, s.procs[0].pid, BLOCKED);
        && blocked == r.1 && |r.0.procs| > 0
        && State() == if r.1 then r.0.(procs := r.0.procs[0 := r.0.procs[0].(waitsOn := id)]) else r.0
      ensures current.Some? && current.value.pid != idle.pid && idle == old(idle)
    {
      hide KernelModel.ChangeState;
      ghost var s := State();
      var callerPID := current.value.pid;
      semQueue := semQueue[k := semQueue[k].(blocked := semQueue[k].blocked + [callerPID])];
      assert State() == WithSem(s, k, s.sems[k].(blocked := s.sems[k].blocked + [callerPID]));
      IdleStaysOut(s, k, callerPID, idle.pid);
      blocked := ChangeState(callerPID, BLOCKED);
      if blocked {
        ghost var s2 := State();
        current := Some(current.value.(waitsOn := id));
        assert State().procs == s2.procs[0 := s2.procs[0].(waitsOn := id)];
      }
    }

    method SemWait(id: int) returns (r: int)
      requires Valid() && KernelRuns.Legal(State(), KernelRuns.SemWait(id))
      modifies this
      ensures Valid() && State() == KernelRuns.Step(old(State()), KernelRuns.SemWait(id))
      ensures r == if FindSem(old(semQueue), id) < |old(semQueue)| then 0 else -1
    {
      hide Inv, WaitEntry, Schedule, Linked, FindSem, KernelRuns.Legal, KernelRuns.Step, NoUnit;
      SemWaitStep(State(), id);
      var k := FindSemaphore(id);
      r := if k < |semQueue| then 0 else -1;
      var blocked := EnterWait(id);
      if blocked {
        ScheduleTask();
      }
    }

    /** waitpid: wait on the process's own semaphore; a caller that need not block goes on
        at once, marks the process TERMINATED and has its answer; one that blocks marks the
        process and is answered after it has been released. */
    method WaitPid(pid: int) returns (r: Option<int>)
      requires Valid() && KernelRuns.Legal(State(), KernelRuns.WaitPid(pid))
      modifies this
      ensures Valid() && State() == KernelRuns.Step(old(State()), KernelRuns.WaitPid(pid))
      ensures r == WaitPidAnswer(old(State()), pid)
    {
      hide Inv, WaitEntry, Schedule, KernelModel.ChangeState, FindPid, KernelRuns.Step, Linked, SetState, Resume;
      WaitPidStep(State(), pid);
      var childSem := OwnSemOf(pid);
      if childSem == None {
        return Some(-1);
      }
      assert KernelRuns.Legal(State(), KernelRuns.SemWait(childSem.value));
      var blocked := EnterWait(childSem.value);
      if blocked {
        ScheduleTask();
        return None;
      }
      var ok := ChangeState(pid, TERMINATED);
      return Some(if ok then pid else -1);
    }

    /** The semaphore of the process with this pid. */
    method OwnSemOf(pid: int) returns (sem: Option<int>)
      requires current.Some? && State().mode.Running?
      ensures var i := FindPid(State().procs, pid);
        sem == if i < |State().procs| then Some(State().procs[i].semId) else None
    {
      FindPidInState(pid);
      if current.value.pid == pid {
        return Some(current.value.semId);
      }
      var i := GetProcess(pid);
      if i == |queue| {
        return None;
      }
      return Some(queue[i].semId);
    }

    // -------------------------------------------------------------- processes

    method StartTask(foreground: bool) returns (pid: int)
      requires Valid() && KernelRuns.Legal(State(), KernelRuns.StartTask(foreground))
      modifies this
      ensures Valid() && State() == KernelRuns.Step(old(State()), KernelRuns.StartTask(foreground))
      ensures pid == old(pidCounter)
    {
      hide Inv;
      ghost var s := State();
      StartKeepsInv(s, foreground);
      pid := pidCounter;
      pidCounter := pidCounter + 1;
      assert forall l, j, p :: WaitsAt(State(), l, j, p) <==> WaitsAt(s, l, j, p);
      var sem := CreateSem(0, "");
      queue := queue + [Pcb(pid, READY, if foreground then 2 else 1, sem, NO_SEM)];
      readyCount := readyCount + 1;
      assert State().procs == Start(s, foreground).procs;
      assert State() == Start(s, foreground);
      InvLinks();
    }

    method KillTask(pid: int) returns (r: int)
      requires Valid() && KernelRuns.Legal(State(), KernelRuns.KillTask(pid))
      modifies this
      ensures Valid() && State() == KernelRuns.Step(old(State()), KernelRuns.KillTask(pid))
      ensures r == if pid == old(userlandPid) || pid == old(initPid) || CannotChange(old(State()), pid, EXITED) then -1
                   else pid
    {
      hide Inv, Schedule, KernelModel.ChangeState, FindPid, KernelRuns.Step, Linked;
      KillStep(State(), pid);
      Changes(State(), pid, EXITED);
      if pid == userlandPid || pid == initPid {
        return -1;
      }
      var ok := ChangeStateAndYield(pid, EXITED);
      return if ok then pid else -1;
    }

    method BlockTask(pid: int) returns (r: int)
      requires Valid() && KernelRuns.Legal(State(), KernelRuns.BlockTask(pid))
      modifies this
      ensures Valid() && State() == KernelRuns.Step(old(State()), KernelRuns.BlockTask(pid))
      ensures r == if CannotChange(old(State()), pid, BLOCKED) then -1 else 0
    {
      hide Inv, Schedule, KernelModel.ChangeState, FindPid, KernelRuns.Step, Linked;
      BlockStep(State(), pid);
      Changes(State(), pid, BLOCKED);
      var ok := ChangeStateAndYield(pid, BLOCKED);
      return if ok then 0 else -1;
    }

    /** changeState, and the tick if it was the current process that stopped. */
    method ChangeStateAndYield(pid: int, st: ProcessState) returns (ok: bool)
      requires Valid() && current.Some? && !KernelRuns.IsIdle(State(), pid)
               && Inv(KernelModel.ChangeState(State(), pid, st).0)
      modifies this
      ensures Valid() && State() == Yielding(old(State()), KernelModel.ChangeState(old(State()), pid, st), pid)
      ensures ok == KernelModel.ChangeState(old(State()), pid, st).1
    {
      hide Inv, Schedule, KernelModel.ChangeState, FindPid, Linked;
      var wasCurrent := current.value.pid == pid;
      assert wasCurrent <==> IsCurrent(State(), pid);
      ok := ChangeState(pid, st);
      if ok && wasCurrent {
        ScheduleTask();
      }
    }

    method Nice(pid: int, newPriority: int) returns (r: int)
      requires Valid() && KernelRuns.Legal(State(), KernelRuns.NiceCall(pid, newPriority))
      modifies this`queue
      ensures Valid() && State() == KernelRuns.Step(old(State()), KernelRuns.NiceCall(pid, newPriority))
      ensures r == if FindPid(old(queue), pid) < |old(queue)| then 0 else -1
    {
      hide Inv, KernelModel.Nice, FindPid, KernelRuns.Step, KernelRuns.Legal, Linked;
      ghost var s := State();
      NiceKeepsInv(s, pid, newPriority);
      NiceCases(s, queue, pid, newPriority);
      NiceStep(s, pid, newPriority);
      var priority := if newPriority < 0 then 0 else newPriority;
      priority := if priority > MAX_PRIO then MAX_PRIO else priority;
      var i := GetProcess(pid);
      if i == |queue| {
        return -1;
      }
      SetPriority(i, priority, KernelModel.Nice(s, pid, newPriority));
      return 0;
    }

    method SetPriority(i: nat, priority: int, ghost t: State)
      requires Linked() && i < |queue| && Inv(t)
      requires t == State().(procs := State().procs[..|State().procs| - |queue|]
               + queue[i := queue[i].(priority := priority)])
      modifies this`queue
      ensures Valid() && State() == t
    {
      hide Inv;
      queue := queue[i := queue[i].(priority := priority)];
      assert State().procs == t.procs;
      InvLinks();
    }

    method Yield()
      requires Valid() && KernelRuns.Legal(State(), KernelRuns.YieldCall)
      modifies this
      ensures Valid() && State() == KernelRuns.Step(old(State()), KernelRuns.YieldCall)
    {
      ghost var s := State();
      ModeKeepsInv(s, s.mode, 0);
      hide Inv, Schedule;
      currentCycles := 0;
      InvLinks();
      ScheduleTask();
    }

    // -------------------------------------------------------------- the scheduler

    /** freeProcess, without the memory and the pipes of the process. */
    method FreeProcess()
      requires Valid() && current.Some? && current.value.pid != idle.pid && current.value.state == TERMINATED
               && queue != []
      modifies this
      ensures Linked() && current.Some? && current.value.pid != idle.pid && idle == old(idle)
      ensures State().(procs := queue) == FreeHead(old(State()))
    {
      ghost var s := State();
      PostWakes(s, current.value.semId);
      PostKeepsPids(s, current.value.semId);
      var value := SemValue(current.value.semId);
      if value == 0 {
        var ok := SemPost(current.value.semId);
      }
      var closed := SemClose(current.value.semId);
      ghost var s2 := State();
      if current.value.pid == pidCounter - 1 {
        pidCounter := pidCounter - 1;
      }
      assert s2.procs[1..] == queue;
      assert forall l, j, p :: WaitsAt(State(), l, j, p) <==> WaitsAt(s2, l, j, p);
    }

    /** The search loop of scheduleTask: s0 is the state it searches. */
    method FindReady(ghost s0: State)
      requires Inv(s0) && s0.mode.Running? && FirstReady(s0.procs) < |s0.procs| && queue == s0.procs
      requires State().(procs := queue, mode := Running) == s0 && IdleNeverWaits(s0)
      modifies this
      ensures Valid() && State() == Search(s0)
    {
      hide Inv, FreeHead, Search, FirstReady, Rotate, Linked;
      Dequeue(s0);
      while current.value.state != READY
        invariant Valid() && State().mode.Running? && FirstReady(State().procs) < |State().procs|
        invariant Search(State()) == Search(s0)
        decreases FirstReady(State().procs)
      {
        ghost var s := State();
        SearchUnfold(s);
        ghost var next: State;
        if current.value.state == TERMINATED {
          FreeProcess();
          next := FreeHead(s);
        } else {
          queue := queue + [current.value];
          next := s.(procs := Rotate(s.procs));
          RotateIs(s.procs);
        }
        Dequeue(next);
      }
      SearchDone(State());
    }

    /** The next process of the queue becomes the current one. */
    method Dequeue(ghost next: State)
      requires queue != [] && Inv(next) && next.mode.Running? && State().(procs := queue, mode := Running) == next
      modifies this`queue, this`current
      ensures Valid() && State() == next && current.Some?
    {
      TablesParts(next);
      current := Some(queue[0]);
      queue := queue[1..];
      assert [current.value] + queue == next.procs;
      assert State() == next;
    }

    /** The current process goes back to the end of the queue, unless it is the idle one. */
    method Requeue()
      requires Valid() && !KeepsRunning(State())
      modifies this`queue, this`idle
      ensures queue == Requeued(old(State())) && idle == old(idle)
      ensures State().(procs := queue, mode := Running) == old(State()).(procs := queue, mode := Running)
    {
      if current.Some? {
        if current.value.pid != idle.pid {
          queue := queue + [current.value];
        } else {
          idle := current.value;
        }
      }
    }

    /** The choice of the next process once the current one has been put back. */
    method Dispatch(ghost s: State)
      requires Inv(s) && !KeepsRunning(s) && queue == Requeued(s)
      requires State().(procs := queue, mode := Running) == s.(procs := queue, mode := Running)
      modifies this
      ensures Valid() && State() == Schedule(s)
    {
      ScheduleKeepsInv(s);
      TablesParts(s);
      RequeuedReady(s);
      if s.readyCount > 0 { RequeueKeepsInv(s); }
      hide Inv, FirstReady, PidsOk, SemIdsOk, ValuesOk, WaitsOnce, WaitersStopped, WaitersQueued, OwnSems, Bounds,
           WaitsAt, Search, Requeued, KeepsRunning;
      if readyCount > 0 {
        FindReady(s.(procs := Requeued(s), mode := Running));
      } else {
        current := Some(idle);
      }
      SetCycles(Schedule(s));
    }

    /** The process chosen may run for as many ticks as its priority says. */
    method SetCycles(ghost t: State)
      requires current.Some? && (current.value.pid == idle.pid ==> current.value == idle)
      requires Inv(t) && State().(cycles := current.value.priority) == t
      modifies this`currentCycles
      ensures Valid() && State() == t
    {
      hide Inv;
      currentCycles := current.value.priority;
      InvLinks();
    }

    /** scheduleTask. */
    method ScheduleTask()
      requires Valid()
      modifies this
      ensures Valid() && State() == Schedule(old(State()))
    {
      ghost var s := State();
      hide Inv, Requeued;
      if current.Some? && current.value.state == READY && currentCycles > 0 {
        ScheduleKeepsInv(s);
        currentCycles := currentCycles - 1;
        InvLinks();
        return;
      }
      Requeue();
      Dispatch(s);
    }
  }

  lemma NiceStep(s: State, pid: int, newPriority: int)
    requires Inv(s) && KernelRuns.Legal(s, KernelRuns.NiceCall(pid, newPriority))
    ensures KernelRuns.Step(s, KernelRuns.NiceCall(pid, newPriority)) == Nice(s, pid, newPriority)
  {
    hide Inv, Nice;
  }

  lemma KillStep(s: State, pid: int)
    requires Inv(s) && KernelRuns.Legal(s, KernelRuns.KillTask(pid))
    ensures Inv(ChangeState(s, pid, EXITED).0)
    ensures KernelRuns.Step(s, KernelRuns.KillTask(pid)) ==
            if pid == s.initPid || pid == s.userlandPid then s else Yielding(s, ChangeState(s, pid, EXITED), pid)
  {
    ChangeStateKeepsInv(s, pid, EXITED);
    hide InvExcept, ChangeState, Schedule;
    TablesParts(ChangeState(s, pid, EXITED).0);
  }

  lemma BlockStep(s: State, pid: int)
    requires Inv(s) && KernelRuns.Legal(s, KernelRuns.BlockTask(pid))
    ensures Inv(ChangeState(s, pid, BLOCKED).0)
    ensures KernelRuns.Step(s, KernelRuns.BlockTask(pid)) == Yielding(s, ChangeState(s, pid, BLOCKED), pid)
  {
    ChangeStateKeepsInv(s, pid, BLOCKED);
    hide InvExcept, ChangeState, Schedule;
    TablesParts(ChangeState(s, pid, BLOCKED).0);
  }

  /** changeState answers -1: the process is unknown, has been terminated, or has exited and
      is not to be terminated. */
  predicate CannotChange(s: State, pid: int, st: ProcessState) {
    forall p :: p in s.procs && p.pid == pid ==> p.state == TERMINATED || (p.state == EXITED && st != TERMINATED)
  }

  lemma Changes(s: State, pid: int, st: ProcessState)
    requires Inv(s)
    ensures ChangeState(s, pid, st).1 <==> !CannotChange(s, pid, st)
  {
    TablesParts(s);
    var i := FindPid(s.procs, pid);
    if i < |s.procs| {
      assert s.procs[i] in s.procs;
    }
  }

  lemma SemWaitStep(s: State, id: int)
    requires Inv(s) && KernelRuns.Legal(s, KernelRuns.SemWait(id))
    ensures NoUnit(s, id) ==> s.mode.Running? && s.procs != []
    ensures var r := WaitEntry(s, id);
      Inv(r.0) && KernelRuns.Step(s, KernelRuns.SemWait(id)) == if r.1 then Schedule(r.0) else r.0
  {
    hide Inv, Schedule, WaitEntry;
    KernelRuns.SemWaitKeepsInv(s, id);
    if !NoUnit(s, id) { UnitKeepsInv(s, id); }
  }

  /** What waitpid answers at once; None if the caller has to wait first. */
  function WaitPidAnswer(s: State, pid: int): Option<int>
    requires KernelRuns.CurrentReady(s)
  {
    var i := FindPid(s.procs, pid);
    if i == |s.procs| then Some(-1)
    else
      var r := WaitEntry(s, s.procs[i].semId);
      if r.1 then None else Some(if ChangeState(r.0, pid, TERMINATED).1 then pid else -1)
  }

  lemma WaitPidStep(s: State, pid: int)
    requires Inv(s) && KernelRuns.Legal(s, KernelRuns.WaitPid(pid))
    ensures var i := FindPid(s.procs, pid);
      && (i == |s.procs| ==> KernelRuns.Step(s, KernelRuns.WaitPid(pid)) == s)
      && (i < |s.procs| ==>
          var r := WaitEntry(s, s.procs[i].semId);
          && Inv(r.0)
          && (!r.1 ==> Inv(ChangeState(r.0, pid, TERMINATED).0))
          && KernelRuns.Step(s, KernelRuns.WaitPid(pid)) == if r.1 then Schedule(r.0)
             else ChangeState(r.0, pid, TERMINATED).0)
  {
    hide Inv, WaitEntry, Schedule, ChangeState, FindPid;
    var i := FindPid(s.procs, pid);
    if i < |s.procs| {
      WaitEntryKeepsInv(s, s.procs[i].semId);
      ChangeStateKeepsInv(WaitEntry(s, s.procs[i].semId).0, pid, TERMINATED);
    }
  }

  lemma SearchDone(s: State)
    requires FirstReady(s.procs) < |s.procs| && s.procs[0].state == READY
    ensures Search(s) == s
  {}

  lemma RotateIs(l: seq<Pcb>)
    requires l != []
    ensures Rotate(l) == l[1..] + [l[0]]
  {}

  lemma NiceCases(s: State, queue: seq<Pcb>, pid: int, newPriority: int)
    requires s.mode.Running? ==> s.procs != []
    requires queue == if s.mode.Running? then s.procs[1..] else s.procs
    ensures var i := FindPid(queue, pid);
      && (i == |queue| ==> Nice(s, pid, newPriority) == s)
      && (i < |queue| ==>
          Nice(s, pid, newPriority) ==
          s.(procs := s.procs[..|s.procs| - |queue|] + queue[i := queue[i].(priority :=
             if newPriority < 0 then 0 else if newPriority > MAX_PRIO then MAX_PRIO else newPriority)]))
  {
    hide FindPid;
    var first := if s.mode.Running? then 1 else 0;
    assert s.procs[first..] == queue;
    var i := FindPid(queue, pid);
    if i < |queue| {
      UpdateBehind(s.procs, queue, first, i, Nice(s, pid, newPriority).procs[first + i]);
    }
  }

  lemma UpdateBehind(procs: seq<Pcb>, queue: seq<Pcb>, first: nat, i: nat, p: Pcb)
    requires first <= |procs| && procs[first..] == queue && i < |queue|
    ensures procs[first + i := p] == procs[..|procs| - |queue|] + queue[i := p]
  {}

  lemma OpenedValue(s: State, name: string, value: int)
    requires Inv(s) && value >= 0 && name != ""
    ensures var k := FindName(s.sems, name);
      var t := Open(s, name, value);
      if k == |s.sems| then KernelModel.SemValue(t, s.semCounter) == value
      else KernelModel.SemValue(t, s.sems[k].id) == KernelModel.SemValue(s, s.sems[k].id)
  {
    hide Inv, FindName, SameName, FindSem;
    TablesParts(s);
    var k := FindName(s.sems, name);
    if k == |s.sems| {
      SemaphoreRuns.NewId(s);
      SemaphoreRuns.FindSemIs(Open(s, name, value).sems, s.semCounter, k);
    } else {
      FindSemUnique(s, k);
      SemaphoreRuns.FindSemIs(Open(s, name, value).sems, s.sems[k].id, k);
    }
  }

  /** Attaching to the semaphore found, or adding one of that name, leaves it where it is found. */
  lemma NameFound(sems: seq<Sem>, name: string)
    ensures var k := FindName(sems, name);
      && (k < |sems| ==> forall attached :: FindName(sems[k := sems[k].(attached := attached)], name) == k)
      && (k == |sems| ==> forall sem: Sem :: sem.name == name ==> FindName(sems + [sem], name) == k)
  {
    hide FindName, SameName;
    var k := FindName(sems, name);
    SameAsItself(name);
    if k < |sems| {
      forall attached ensures FindName(sems[k := sems[k].(attached := attached)], name) == k {
        FindNameIs(sems[k := sems[k].(attached := attached)], name, k);
      }
    } else {
      forall sem: Sem | sem.name == name ensures FindName(sems + [sem], name) == k {
        FindNameIs(sems + [sem], name, k);
      }
    }
  }

  lemma SameAsItself(name: string)
    ensures SameName(name, name)
  {}

  /** One round of the search loop. */
  lemma SearchUnfold(s: State)
    requires Inv(s) && s.mode.Running? && FirstReady(s.procs) < |s.procs| && s.procs[0].state != READY
    ensures |s.procs| > 1 && Rotate(s.procs) != [] && (s.procs[0].state == TERMINATED ==> FreeHead(s).procs != [])
    ensures var next := if s.procs[0].state == TERMINATED then FreeHead(s) else s.(procs := Rotate(s.procs));
      && Inv(next) && next.mode.Running? && FirstReady(next.procs) < FirstReady(s.procs)
         && FirstReady(next.procs) < |next.procs|
      && Search(s) == Search(next)
  {
    if s.procs[0].state == TERMINATED {
      FreeHeadKeepsInv(s);
      FreeHeadWakes(s);
      WokenFirstReady(s.procs[1..], FreeHead(s).procs);
    } else {
      RotateInv(s);
      RotateFirstReady(s.procs);
    }
  }

  lemma RequeueKeepsInv(s: State)
    requires Inv(s) && s.readyCount > 0
    ensures var s0 := s.(procs := Requeued(s), mode := Running);
      Inv(s0) && FirstReady(s0.procs) < |s0.procs| && IdleNeverWaits(s0)
  {
    TablesParts(s);
    RequeuedReady(s);
    if s.mode.Running? { RotateKeepsInv(s, Running, s.cycles); } else { ModeKeepsInv(s, Running, s.cycles); }
    TablesParts(s.(procs := Requeued(s), mode := Running));
  }

  lemma IdleStaysOut(s: State, k: nat, pid: int, idlePid: int)
    requires k < |s.sems| && pid != idlePid && forall l, j :: !WaitsAt(s, l, j, idlePid)
    ensures forall l, j :: !WaitsAt(WithSem(s, k, s.sems[k].(blocked := s.sems[k].blocked + [pid])), l, j, idlePid)
  {
    var t := WithSem(s, k, s.sems[k].(blocked := s.sems[k].blocked + [pid]));
    forall l, j ensures !WaitsAt(t, l, j, idlePid) {
      assert WaitsAt(t, l, j, idlePid) ==> WaitsAt(s, l, j, idlePid);
    }
  }

  lemma DrainUnfold(s: State, k: nat)
    requires k < |s.sems|
    ensures |s.sems[k].blocked| == 0 ==> Drain(s, k) == WithSem(s, k, s.sems[k].(value := s.sems[k].value + 1))
    ensures |s.sems[k].blocked| > 0 ==>
              var r := Resume(Popped(s, k), s.sems[k].blocked[0]);
              && |r.0.sems| == |s.sems| && |r.0.sems[k].blocked| < |s.sems[k].blocked|
              && Drain(s, k) == if r.1 then r.0 else Drain(r.0, k)
  {}
}

/** Every system call and every tick keeps the invariant. */
module KernelSteps {
  import opened Wrappers
  import opened KernelModel
  import opened KernelInvariant

  // ---------------------------------------------------------------- the scheduler

  lemma RotatedAt(l: seq<Pcb>)
    requires l != []
    ensures |Rotate(l)| == |l|
    ensures forall i :: 0 <= i < |l| ==> Rotate(l)[i] == l[if i + 1 < |l| then i + 1 else 0]
  {}

  lemma RotateKeepsTables(s: State, mode: Mode, cycles: int)
    requires TablesOk(s, NO_SEM) && s.procs != [] && 0 <= cycles <= MAX_PRIO
    ensures TablesOk(s.(procs := Rotate(s.procs), mode := mode, cycles := cycles), NO_SEM)
  {
    RotateKeepsOwn(s, s.(procs := Rotate(s.procs), mode := mode, cycles := cycles));
    RotatedAt(s.procs);
    NumReadyRotate(s.procs);
    hide OwnSems, Rotate;
  }

  lemma RotateKeepsWaits(s: State, mode: Mode, cycles: int)
    requires WaitsOk(s) && s.procs != []
    ensures WaitsOk(s.(procs := Rotate(s.procs), mode := mode, cycles := cycles))
  {
    RotatedAt(s.procs);
    SameQueues(s, s.(procs := Rotate(s.procs), mode := mode, cycles := cycles));
    hide Rotate, WaitsAt, Queued, HasSem;
  }

  lemma RotateKeepsInv(s: State, mode: Mode, cycles: int)
    requires Inv(s) && s.procs != [] && 0 <= cycles <= MAX_PRIO
    ensures Inv(s.(procs := Rotate(s.procs), mode := mode, cycles := cycles))
  {
    hide TablesOk, WaitsOk;
    RotateKeepsTables(s, mode, cycles);
    RotateKeepsWaits(s, mode, cycles);
  }

  lemma RotateInv(s: State)
    requires Inv(s) && s.procs != []
    ensures Inv(s.(procs := Rotate(s.procs)))
  {
    TablesParts(s);
    RotateKeepsInv(s, s.mode, s.cycles);
    assert s.(procs := Rotate(s.procs)) == s.(procs := Rotate(s.procs), mode := s.mode, cycles := s.cycles);
  }

  lemma RotateKeepsOwn(s: State, s': State)
    requires s.procs != [] && OwnSems(s, NO_SEM) && PidsOk(s) && s'.procs == Rotate(s.procs) && s'.sems == s.sems
    ensures OwnSems(s', NO_SEM)
    ensures forall i, j :: 0 <= i < j < |s'.procs| ==> s'.procs[i].pid != s'.procs[j].pid
  {
    RotatedAt(s.procs);
    var n := |s.procs|;
    forall i, j | 0 <= i < j < n
      ensures s'.procs[i].pid != s'.procs[j].pid && s'.procs[i].semId != s'.procs[j].semId
    {
      var i', j' := i + 1, if j + 1 < n then j + 1 else 0;
      assert s'.procs[i] == s.procs[i'] && s'.procs[j] == s.procs[j'];
      if i' < j' { assert s.procs[i'].pid != s.procs[j'].pid; } else { assert s.procs[j'].pid != s.procs[i'].pid; }
    }
  }

  lemma ModeKeepsInv(s: State, mode: Mode, cycles: int)
    requires Inv(s) && (mode.Running? ==> s.procs != []) && 0 <= cycles <= MAX_PRIO
    ensures Inv(s.(mode := mode, cycles := cycles))
  {
    SameQueues(s, s.(mode := mode, cycles := cycles));
  }

  lemma CyclesKeepInv(s: State, cycles: int)
    requires Inv(s) && 0 <= cycles <= MAX_PRIO
    ensures Inv(s.(cycles := cycles))
  {
    TablesParts(s);
    ModeKeepsInv(s, s.mode, cycles);
    assert s.(cycles := cycles) == s.(mode := s.mode, cycles := cycles);
  }

  /** The state after a dead process has left together with its semaphore k. */
  function Dropped(s: State, k: nat): State
    requires s.procs != [] && k < |s.sems|
  {
    s.(sems := Without(s.sems, k), procs := s.procs[1..],
       pidCounter := s.pidCounter - (if s.procs[0].pid == s.pidCounter - 1 then 1 else 0))
  }

  lemma DropHeadKeepsTables(s: State, k: nat)
    requires Inv(s) && |s.procs| > 1 && Dead(s.procs[0].state) && k < |s.sems| && s.sems[k].id == s.procs[0].semId
    ensures TablesOk(Dropped(s, k), NO_SEM)
  {
    hide WaitsOk, HasSem, Without;
    CloseSems(s, k);
    assert forall j :: 0 <= j < |s.procs| - 1 ==>
           Dropped(s, k).procs[j] == s.procs[j + 1] && s.procs[0].pid != s.procs[j + 1].pid
                                                  && s.procs[0].semId != s.procs[j + 1].semId;
  }

  lemma DropHeadKeepsInv(s: State, k: nat)
    requires Inv(s) && |s.procs| > 1 && Dead(s.procs[0].state) && k < |s.sems| && s.sems[k].id == s.procs[0].semId
    ensures Inv(Dropped(s, k))
  {
    hide TablesOk, HasSem, Queued, Without;
    DropHeadKeepsTables(s, k);
    TablesParts(s);
    var s' := Dropped(s, k);
    CloseSems(s, k);
    CloseQueues(s, k);
    SameQueues(s.(sems := Without(s.sems, k)), s');
    assert forall j :: 0 <= j < |s'.procs| ==> s'.procs[j] == s.procs[j + 1];
  }

  /** Destroying semaphore k. */
  lemma CloseSems(s: State, k: nat)
    requires SemIdsOk(s) && k < |s.sems|
    ensures var s' := s.(sems := Without(s.sems, k));
      && |s'.sems| == |s.sems| - 1
      && (forall l :: 0 <= l < |s'.sems| ==> s'.sems[l] == s.sems[if l < k then l else l + 1])
      && (forall id :: id != s.sems[k].id ==> (HasSem(s'.sems, id) <==> HasSem(s.sems, id)))
      && !HasSem(s'.sems, s.sems[k].id)
  {
    var s' := s.(sems := Without(s.sems, k));
    assert forall l :: 0 <= l < |s'.sems| ==> s'.sems[l] == s.sems[if l < k then l else l + 1];
    forall id | id != s.sems[k].id && HasSem(s.sems, id) ensures HasSem(s'.sems, id) {
      var l :| 0 <= l < |s.sems| && s.sems[l].id == id;
      assert s'.sems[if l < k then l else l - 1].id == id;
    }
  }

  lemma CloseQueues(s: State, k: nat)
    requires SemIdsOk(s) && k < |s.sems|
    ensures var s' := s.(sems := Without(s.sems, k));
      && (forall l, j, pid :: WaitsAt(s', l, j, pid) <==> WaitsAt(s, if l < k then l else l + 1, j, pid) && l >= 0)
      && (forall pid, id :: id != s.sems[k].id && Queued(s, pid, id) ==> Queued(s', pid, id))
  {
    hide SemIdsOk, HasSem, Without;
    CloseSems(s, k);
    var s' := s.(sems := Without(s.sems, k));
    forall pid, id | id != s.sems[k].id && Queued(s, pid, id) ensures Queued(s', pid, id) {
      var l, j :| WaitsAt(s, l, j, pid) && s.sems[l].id == id;
      assert WaitsAt(s', if l < k then l else l - 1, j, pid);
    }
  }

  lemma HeadPostable(s: State)
    requires Inv(s) && s.procs != [] && Dead(s.procs[0].state)
    ensures var k := FindSem(s.sems, s.procs[0].semId);
      k < |s.sems| && s.sems[k].name == "" && Postable(s, k, NO_SEM)
  {
    OwnSemFound(s, 0);
    hide TablesOk, WaitsOk;
    assert forall j :: 0 <= j < |s.procs| && s.procs[j].semId == s.procs[0].semId ==> j == 0 by {
      assert OwnSems(s, NO_SEM) by { TablesParts(s); }
    }
  }

  lemma TablesParts(s: State)
    requires Inv(s)
    ensures OwnSems(s, NO_SEM) && SemIdsOk(s) && PidsOk(s) && Counted(s) && Bounds(s) && ValuesOk(s)
    ensures WaitsOnce(s) && WaitersStopped(s) && WaitersQueued(s) && IdleNeverWaits(s)
  {}

  lemma FreeHeadKeepsInv(s: State)
    requires Inv(s) && |s.procs| > 1 && s.procs[0].state == TERMINATED
    ensures Inv(FreeHead(s)) && FreeHead(s).semCounter == s.semCounter
  {
    hide Inv, OwnSems, SemIdsOk;
    var id := s.procs[0].semId;
    HeadPostable(s);
    PostWakes(s, id);
    PostKeepsPids(s, id);
    var k := FindSem(s.sems, id);
    var s1 := if SemValue(s, id) == 0 then Post(s, id) else s;
    assert Inv(s1) by {
      if SemValue(s, id) == 0 { DrainInv(s, k); }
    }
    assert s1.procs[0] == s.procs[0] && |s1.procs| > 1;
    HeadPostable(s1);
    DropHeadKeepsInv(s1, FindSem(s1.sems, id));
  }

  lemma DrainInv(s: State, k: nat)
    requires Inv(s) && k < |s.sems| && Postable(s, k, NO_SEM)
    ensures Inv(Drain(s, k))
  {
    hide TablesOk, WaitsOk;
    DrainKeepsInv(s, k, NO_SEM);
  }

  lemma OwnSemFound(s: State, j: nat)
    requires OwnSems(s, NO_SEM) && SemIdsOk(s) && j < |s.procs|
    ensures var k := FindSem(s.sems, s.procs[j].semId);
      k < |s.sems| && s.sems[k].id == s.procs[j].semId && s.sems[k].name == ""
          && (Dead(s.procs[j].state) || s.sems[k].value == 0)
  {
    assert HasSem(s.sems, s.procs[j].semId);
  }

  lemma {:induction false} SearchKeepsInv(s: State)
    requires Inv(s) && FirstReady(s.procs) < |s.procs| && s.mode.Running?
    ensures Inv(Search(s)) && Search(s).semCounter == s.semCounter
    decreases FirstReady(s.procs)
  {
    if s.procs[0].state == READY {
    } else if s.procs[0].state == TERMINATED {
      FreeHeadKeepsInv(s);
      FreeHeadWakes(s);
      WokenFirstReady(s.procs[1..], FreeHead(s).procs);
      SearchKeepsInv(FreeHead(s));
    } else {
      RotateInv(s);
      RotateFirstReady(s.procs);
      SearchKeepsInv(s.(procs := Rotate(s.procs)));
    }
  }

  lemma ScheduleKeepsInv(s: State)
    requires Inv(s)
    ensures Inv(Schedule(s)) && Schedule(s).semCounter == s.semCounter
  {
    hide Inv, OwnSems, SemIdsOk, PidsOk, ValuesOk, WaitsOnce, WaitersStopped, WaitersQueued, IdleNeverWaits;
    TablesParts(s);
    if KeepsRunning(s) {
      ModeKeepsInv(s, s.mode, s.cycles - 1);
    } else {
      RequeuedReady(s);
      var mode := if s.readyCount > 0 then Running else Idling;
      var cycles := if s.readyCount > 0 then s.cycles else s.idle.priority;
      assert mode.Running? ==> s.procs != [];
      if s.mode.Running? { RotateKeepsInv(s, mode, cycles); } else { ModeKeepsInv(s, mode, cycles); }
      if s.readyCount > 0 {
        var s1 := s.(procs := Requeued(s), mode := Running);
        SearchKeepsInv(s1);
        TablesParts(Search(s1));
        ModeKeepsInv(Search(s1), Running, Search(s1).procs[0].priority);
      }
    }
  }

  // ---------------------------------------------------------------- processes

  /** changeState: a process that waits on a semaphore is not made READY or BLOCKED by hand. */
  lemma ChangeStateKeepsInv(s: State, pid: int, st: ProcessState)
    requires Inv(s)
    requires Dead(st) || WaitsNowhere(s, pid)
    ensures Inv(ChangeState(s, pid, st).0) && ChangeState(s, pid, st).0.semCounter == s.semCounter
  {
    var i := FindPid(s.procs, pid);
    if !Refuses(s, i, st) {
      if st == EXITED {
        var id := s.procs[i].semId;
        OwnSemFound(s, i);
        var k := FindSem(s.sems, id);
        assert InvExcept(s, id);
        DrainKeepsInv(s, k, id);
        PostWakes(s, id);
        PostKeepsPids(s, id);
        SetStateKeepsInv(Post(s, id), i, EXITED, id);
      } else {
        SetStateKeepsInv(s, i, st, NO_SEM);
      }
    }
  }

  /** The process with this pid, if alive, is not blocked by semWait. */
  ghost predicate WaitsNowhere(s: State, pid: int) {
    && (forall k, i :: !WaitsAt(s, k, i, pid))
    && (forall j :: 0 <= j < |s.procs| && s.procs[j].pid == pid && !Dead(s.procs[j].state) ==>
       s.procs[j].waitsOn == NO_SEM)
  }

  /** Nice only changes priorities, within 0..20. */
  lemma NiceKeepsInv(s: State, pid: int, priority: int)
    requires Inv(s)
    ensures Inv(Nice(s, pid, priority)) && Nice(s, pid, priority).semCounter == s.semCounter
  {
    var first := if s.mode.Running? && s.procs != [] then 1 else 0;
    var i := first + FindPid(s.procs[first..], pid);
    if i < |s.procs| { PriorityKeepsInv(s, i, Nice(s, pid, priority).procs[i].priority); }
  }

  lemma PriorityKeepsInv(s: State, i: nat, priority: int)
    requires Inv(s) && i < |s.procs| && 0 <= priority <= MAX_PRIO
    ensures Inv(s.(procs := s.procs[i := s.procs[i].(priority := priority)]))
  {
    hide TablesOk, HasSem;
    var s' := s.(procs := s.procs[i := s.procs[i].(priority := priority)]);
    PriorityKeepsTables(s, i, priority);
    SameQueues(s, s');
    assert WaitsOk(s');
  }

  lemma PriorityKeepsTables(s: State, i: nat, priority: int)
    requires TablesOk(s, NO_SEM) && i < |s.procs| && 0 <= priority <= MAX_PRIO
    ensures TablesOk(s.(procs := s.procs[i := s.procs[i].(priority := priority)]), NO_SEM)
  {
    hide NumReady, HasSem;
    NumReadyUpdate(s.procs, i, s.procs[i].(priority := priority));
  }

  // ---------------------------------------------------------------- semaphores

  lemma CreateQueues(s: State, value: int, name: string)
    requires SemIdsOk(s)
    ensures forall k, l, pid :: WaitsAt(Create(s, value, name), k, l, pid) <==> WaitsAt(s, k, l, pid)
    ensures forall pid, id :: Queued(s, pid, id) ==> Queued(Create(s, value, name), pid, id)
    ensures forall id :: HasSem(Create(s, value, name).sems, id) <==> HasSem(s.sems, id) || id == s.semCounter
  {
    var s' := Create(s, value, name);
    forall id | HasSem(s.sems, id) ensures HasSem(s'.sems, id) {
      var k :| 0 <= k < |s.sems| && s.sems[k].id == id;
      assert s'.sems[k].id == id;
    }
    assert s'.sems[|s.sems|].id == s.semCounter;
    forall pid, id | Queued(s, pid, id) ensures Queued(s', pid, id) {
      var k, i :| WaitsAt(s, k, i, pid) && s.sems[k].id == id;
      assert WaitsAt(s', k, i, pid) && s'.sems[k].id == id;
    }
  }

  lemma OwnIdsBelow(s: State)
    requires OwnSems(s, NO_SEM) && SemIdsOk(s)
    ensures forall j :: 0 <= j < |s.procs| ==> 0 <= s.procs[j].semId < s.semCounter
  {
    forall j | 0 <= j < |s.procs| ensures 0 <= s.procs[j].semId < s.semCounter { OwnSemFound(s, j); }
  }

  lemma CreateKeepsTables(s: State, value: int, name: string)
    requires TablesOk(s, NO_SEM) && value >= 0
    ensures TablesOk(Create(s, value, name), NO_SEM)
  {
    OwnIdsBelow(s);
    CreateQueues(s, value, name);
    hide WaitsAt, Queued, HasSem;
  }

  lemma CreateKeepsWaits(s: State, value: int, name: string)
    requires WaitsOk(s) && SemIdsOk(s)
    ensures WaitsOk(Create(s, value, name))
  {
    CreateQueues(s, value, name);
    forall k, i, pid | WaitsAt(s, k, i, pid) ensures Create(s, value, name).sems[k].id == s.sems[k].id {}
    hide WaitsAt, Queued, HasSem;
  }

  lemma CreateKeepsInv(s: State, value: int, name: string)
    requires Inv(s) && value >= 0
    ensures Inv(Create(s, value, name))
  {
    CreateKeepsTables(s, value, name);
    CreateKeepsWaits(s, value, name);
  }

  lemma HasSemAt(sems: seq<Sem>, k: nat)
    requires k < |sems|
    ensures HasSem(sems, sems[k].id)
  {}

  /** Appending a READY process whose pid and semaphore are new. */
  lemma AppendKeepsTables(s: State, p: Pcb, k: nat)
    requires TablesOk(s, NO_SEM) && p.state == READY && p.pid == s.pidCounter && 0 <= p.priority <= MAX_PRIO
    requires k < |s.sems| && s.sems[k].id == p.semId && s.sems[k].name == "" && s.sems[k].value == 0
    requires forall j :: 0 <= j < |s.procs| ==> s.procs[j].semId != p.semId
    ensures TablesOk(s.(procs := s.procs + [p], pidCounter := s.pidCounter + 1, readyCount := s.readyCount + 1), NO_SEM)
  {
    hide HasSem;
    NumReadyConcat(s.procs, [p]);
    HasSemAt(s.sems, k);
    var s' := s.(procs := s.procs + [p], pidCounter := s.pidCounter + 1, readyCount := s.readyCount + 1);
    assert forall j :: 0 <= j < |s.procs| ==> s'.procs[j] == s.procs[j];
    assert s'.procs[|s.procs|] == p;
  }

  lemma AppendKeepsWaits(s: State, p: Pcb)
    requires WaitsOk(s) && p.state == READY && p.waitsOn == NO_SEM && forall k, i :: !WaitsAt(s, k, i, p.pid)
    ensures WaitsOk(s.(procs := s.procs + [p], pidCounter := s.pidCounter + 1, readyCount := s.readyCount + 1))
  {
    SameQueues(s, s.(procs := s.procs + [p], pidCounter := s.pidCounter + 1, readyCount := s.readyCount + 1));
  }

  /** A new process: its pid may be one that an ended process had, but no queue still holds it. */
  lemma StartKeepsInv(s: State, foreground: bool)
    requires Inv(s) && forall k, i :: !WaitsAt(s, k, i, s.pidCounter)
    ensures Inv(Start(s, foreground))
  {
    hide TablesOk, WaitsOk, OwnSems, SemIdsOk, WaitsAt, Queued, HasSem;
    CreateKeepsInv(s, 0, "");
    TablesParts(s);
    OwnIdsBelow(s);
    CreateQueues(s, 0, "");
    var s1 := Create(s, 0, "");
    var p := Pcb(s.pidCounter, READY, if foreground then 2 else 1, s.semCounter, NO_SEM);
    AppendKeepsTables(s1, p, |s.sems|);
    AppendKeepsWaits(s1, p);
  }

  ghost predicate Public(s: State, id: int) {
    forall j :: 0 <= j < |s.procs| ==> s.procs[j].semId != id
  }

  lemma PostKeepsInv(s: State, id: int)
    requires Inv(s) && Public(s, id)
    ensures Inv(Post(s, id)) && Post(s, id).semCounter == s.semCounter
  {
    var k := FindSem(s.sems, id);
    PostWakes(s, id);
    if k < |s.sems| { DrainKeepsInv(s, k, NO_SEM); }
  }

  lemma PostLeavesOthers(s: State, id: int)
    ensures var s' := Post(s, id);
      && |s'.sems| == |s.sems| && s'.pidCounter == s.pidCounter
      && (forall l :: 0 <= l < |s.sems| ==>
            s'.sems[l].id == s.sems[l].id && s'.sems[l].name == s.sems[l].name
                && s'.sems[l].attached == s.sems[l].attached)
      && (forall l :: 0 <= l < |s.sems| && s.sems[l].id != id ==> s'.sems[l] == s.sems[l])
  {
    var k := FindSem(s.sems, id);
    if k < |s.sems| {
      PostWakesFirstLive(s, k);
      if w: nat :| FirstLive(s, k, w) {
        assert Post(s, id) == Wake(s, k, w);
      }
    }
  }

  lemma SameFind(a: seq<Sem>, b: seq<Sem>, id: int)
    requires |a| == |b| && forall l :: 0 <= l < |a| ==> a[l].id == b[l].id
    ensures FindSem(a, id) == FindSem(b, id)
  {}

  lemma DestroyKeepsTables(s: State, k: nat)
    requires Inv(s) && k < |s.sems| && Public(s, s.sems[k].id)
    ensures TablesOk(s.(sems := Without(s.sems, k)), NO_SEM)
  {
    hide WaitsOk, HasSem, Without;
    CloseSems(s, k);
  }

  lemma DestroyKeepsInv(s: State, k: nat)
    requires Inv(s) && k < |s.sems| && Public(s, s.sems[k].id)
    ensures Inv(s.(sems := Without(s.sems, k)))
  {
    hide TablesOk, HasSem, Queued, Without;
    DestroyKeepsTables(s, k);
    TablesParts(s);
    CloseSems(s, k);
    CloseQueues(s, k);
    forall k', i, pid | WaitsAt(s.(sems := Without(s.sems, k)), k', i, pid)
        ensures WaitsAt(s, if k' < k then k' else k' + 1, i, pid) {}
  }

  lemma AttachedKeepsInv(s: State, k: nat, attached: int)
    requires Inv(s) && k < |s.sems|
    ensures Inv(WithSem(s, k, s.sems[k].(attached := attached)))
  {
    hide TablesOk, WaitsOk;
    TablesParts(s);
    ValueKeepsInv(s, k, s.sems[k].value, attached, NO_SEM);
  }

  lemma CloseKeepsInv(s: State, id: int)
    requires Inv(s) && Public(s, id)
    ensures Inv(Close(s, id)) && Close(s, id).semCounter == s.semCounter
  {
    hide Inv, Without;
    var k := FindSem(s.sems, id);
    if k < |s.sems| {
      if s.sems[k].name == "" || s.sems[k].attached == 1 {
        DestroyKeepsInv(s, k);
      } else {
        AttachedKeepsInv(s, k, s.sems[k].attached - 1);
      }
    }
  }

  lemma OpenKeepsInv(s: State, name: string, value: int)
    requires Inv(s) && value >= 0
    ensures Inv(Open(s, name, value))
  {
    hide Inv, FindName;
    var k := FindName(s.sems, name);
    if k == |s.sems| { CreateKeepsInv(s, value, name); }
    else { AttachedKeepsInv(s, k, s.sems[k].attached + 1); }
  }

  /** The current process has entered the queue of semaphore k and is BLOCKED. */
  function Enqueued(s: State, k: nat): State
    requires s.procs != [] && k < |s.sems|
  {
    var s1 := WithSem(s, k, s.sems[k].(blocked := s.sems[k].blocked + [s.procs[0].pid]));
    var s2 := SetState(s1, 0, BLOCKED);
    s2.(procs := s2.procs[0 := s2.procs[0].(waitsOn := s.sems[k].id)])
  }

  lemma EnqueueKeepsTables(s: State, k: nat)
    requires TablesOk(s, NO_SEM) && s.procs != [] && s.procs[0].state == READY && k < |s.sems| && s.sems[k].value == 0
    ensures TablesOk(Enqueued(s, k), NO_SEM)
  {
    hide NumReady, HasSem;
    var s' := Enqueued(s, k);
    NumReadyUpdate(s.procs, 0, s'.procs[0]);
    assert s'.procs == s.procs[0 := s'.procs[0]];
    SameSemIds(s.sems, s'.sems);
    assert forall j :: 0 <= j < |s.procs| ==> s'.procs[j].pid == s.procs[j].pid && s'.procs[j].semId == s.procs[j].semId
                                              && s'.procs[j].priority == s.procs[j].priority
                                              && Dead(s'.procs[j].state) == Dead(s.procs[j].state);
    assert forall l :: 0 <= l < |s.sems| ==>
           s'.sems[l].id == s.sems[l].id && s'.sems[l].value == s.sems[l].value && s'.sems[l].name == s.sems[l].name;
    assert s'.sems[k].value == 0 && forall l :: 0 <= l < |s.sems| && l != k ==> s'.sems[l] == s.sems[l];
    assert Counted(s');
    hide Enqueued, Counted;
  }

  lemma EnqueuedQueues(s: State, k: nat)
    requires s.procs != [] && k < |s.sems|
    ensures forall l, j, pid :: WaitsAt(Enqueued(s, k), l, j, pid) <==>
              WaitsAt(s, l, j, pid) || (l == k && j == |s.sems[k].blocked| && pid == s.procs[0].pid)
    ensures forall pid, id :: Queued(s, pid, id) ==> Queued(Enqueued(s, k), pid, id)
    ensures Queued(Enqueued(s, k), s.procs[0].pid, s.sems[k].id)
    ensures forall id :: HasSem(Enqueued(s, k).sems, id) <==> HasSem(s.sems, id)
  {
    var s' := Enqueued(s, k);
    SameSemIds(s.sems, s'.sems);
    SameSemIds(s'.sems, s.sems);
    forall pid, id | Queued(s, pid, id) ensures Queued(s', pid, id) {
      var l, j :| WaitsAt(s, l, j, pid) && s.sems[l].id == id;
      assert WaitsAt(s', l, j, pid) && s'.sems[l].id == id;
    }
    assert WaitsAt(s', k, |s.sems[k].blocked|, s.procs[0].pid);
  }

  lemma EnqueueKeepsWaits(s: State, k: nat)
    requires WaitsOk(s) && s.procs != [] && k < |s.sems| && s.sems[k].id < s.semCounter
    requires forall l, j :: !WaitsAt(s, l, j, s.procs[0].pid)
    requires forall j :: 0 < j < |s.procs| ==> s.procs[j].pid != s.procs[0].pid
    requires s.procs[0].pid != s.idle.pid
    ensures WaitsOk(Enqueued(s, k))
  {
    EnqueuedQueues(s, k);
    var s' := Enqueued(s, k);
    assert forall j :: 0 <= j < |s.procs| ==>
           s'.procs[j].pid == s.procs[j].pid && (j > 0 ==> s'.procs[j] == s.procs[j]);
    forall l, j, pid | WaitsAt(s, l, j, pid) ensures s'.sems[l].id == s.sems[l].id {}
    assert s'.procs[0].waitsOn == s.sems[k].id && s'.procs[0].state == BLOCKED;
    hide WaitsAt, Queued, HasSem, Enqueued;
  }

  /** A READY current process enters the queue of a semaphore without value, and stops. */
  lemma EnqueueKeepsInv(s: State, k: nat)
    requires Inv(s) && s.procs != [] && s.procs[0].state == READY && k < |s.sems| && s.sems[k].value == 0
    ensures Inv(Enqueued(s, k))
  {
    EnqueueKeepsTables(s, k);
    hide Bounds, OwnSems, ValuesOk, Counted, WaitersQueued, WaitsOnce;
    EnqueueKeepsWaits(s, k);
  }

  /** A wait that takes a unit, or names no semaphore, is the same whoever makes it. */
  lemma UnitKeepsInv(s: State, id: int)
    requires Inv(s) && !NoUnit(s, id)
    ensures Inv(WaitEntry(s, id).0) && !WaitEntry(s, id).1
    ensures WaitEntry(s, id).0.semCounter == s.semCounter
  {
    hide TablesOk, WaitsOk;
    TablesParts(s);
    var k := FindSem(s.sems, id);
    if k < |s.sems| {
      ValueKeepsInv(s, k, s.sems[k].value - 1, s.sems[k].attached, NO_SEM);
    }
  }

  lemma WaitEntryKeepsInv(s: State, id: int)
    requires Inv(s) && s.mode.Running? && s.procs != [] && s.procs[0].state == READY
    ensures Inv(WaitEntry(s, id).0) && WaitEntry(s, id).0.semCounter == s.semCounter
    ensures WaitEntry(s, id).0.mode == s.mode && |WaitEntry(s, id).0.procs| == |s.procs|
    ensures WaitEntry(s, id).0.procs[0].pid == s.procs[0].pid && WaitEntry(s, id).0.procs[1..] == s.procs[1..]
  {
    hide TablesOk, WaitsOk;
    TablesParts(s);
    var k := FindSem(s.sems, id);
    if k < |s.sems| {
      if s.sems[k].value > 0 {
        ValueKeepsInv(s, k, s.sems[k].value - 1, s.sems[k].attached, NO_SEM);
      } else {
        EnqueueKeepsInv(s, k);
        FindPidUnique(s.procs, 0);
      }
    }
  }
}

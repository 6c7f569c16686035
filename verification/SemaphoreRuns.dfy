/** Whole runs of the kernel, seen at one semaphore: what its clients assume of it in Handoff
    is what happens to it, whatever else the kernel does meanwhile. */
module SemaphoreRuns {
  import opened Wrappers
  import opened KernelModel
  import opened KernelInvariant
  import opened KernelSteps
  import opened KernelRuns
  import Handoff
  import Lifecycle

  ghost predicate Present(s: State, id: int) { FindSem(s.sems, id) < |s.sems| }

  /** The semaphore as its clients see it. */
  ghost function SemAt(s: State, id: int): Handoff.Sem
    requires Present(s, id) && ValuesOk(s)
  {
    Handoff.View(s.sems[FindSem(s.sems, id)])
  }

  /** The semaphore is as it was. */
  ghost predicate Keeps(s: State, s': State, id: int) {
    Present(s, id) ==> Present(s', id) && s'.sems[FindSem(s'.sems, id)] == s.sems[FindSem(s.sems, id)]
  }

  /** Nobody owns the semaphore, or a process that has exited and not been collected yet. */
  ghost predicate Dormant(s: State, id: int) {
    forall j :: 0 <= j < |s.procs| && s.procs[j].semId == id ==> s.procs[j].state == EXITED
  }

  ghost predicate NotFreed(s: State, id: int) {
    forall j :: 0 <= j < |s.procs| && s.procs[j].semId == id ==> s.procs[j].state != TERMINATED
  }

  /** The operation opens the semaphore by its name. */
  predicate Attaches(s: State, op: Op, id: int) {
    op.SemOpen? && FindName(s.sems, op.name) == FindSem(s.sems, id) < |s.sems|
  }

  /** A close now destroys the semaphore. */
  predicate LastClose(s: State, id: int) {
    var k := FindSem(s.sems, id);
    k < |s.sems| && (s.sems[k].name == "" || s.sems[k].attached == 1)
  }

  // ---------------------------------------------------------------- what leaves it alone

  lemma FindSemIs(sems: seq<Sem>, id: int, k: nat)
    requires k < |sems| && sems[k].id == id && forall j :: 0 <= j < k ==> sems[j].id != id
    ensures FindSem(sems, id) == k
  {}

  lemma KeptByPost(s: State, other: int, id: int)
    requires other != id
    ensures Keeps(s, Post(s, other), id)
  {
    hide Post, FindSem;
    PostLeavesOthers(s, other);
    SameFind(s.sems, Post(s, other).sems, id);
  }

  lemma KeptByClose(s: State, other: int, id: int)
    requires other != id
    ensures Keeps(s, Close(s, other), id)
  {
    hide FindSem;
    var k, l := FindSem(s.sems, other), FindSem(s.sems, id);
    if k < |s.sems| && l < |s.sems| {
      var s' := Close(s, other);
      if s.sems[k].name == "" || s.sems[k].attached == 1 {
        assert forall j :: 0 <= j < |s'.sems| ==> s'.sems[j] == s.sems[if j < k then j else j + 1];
        FindSemIs(s'.sems, id, if l < k then l else l - 1);
      } else {
        FindSemIs(s'.sems, id, l);
      }
    }
  }

  lemma KeptByFreeHead(s: State, id: int)
    requires s.procs != [] && s.procs[0].semId != id
    ensures Keeps(s, FreeHead(s), id)
  {
    hide Post, Close, FindSem;
    var own := s.procs[0].semId;
    KeptByPost(s, own, id);
    var s1 := if SemValue(s, own) == 0 then Post(s, own) else s;
    KeptByClose(s1, own, id);
  }

  lemma {:induction false} KeptBySearch(s: State, id: int)
    requires Inv(s) && FirstReady(s.procs) < |s.procs| && s.mode.Running? && NotFreed(s, id)
    ensures Keeps(s, Search(s), id)
    decreases FirstReady(s.procs)
  {
    hide Inv, FreeHead, FindSem;
    if s.procs[0].state == READY {
    } else if s.procs[0].state == TERMINATED {
      FreeHeadKeepsInv(s);
      FreeHeadWakes(s);
      WokenFirstReady(s.procs[1..], FreeHead(s).procs);
      KeptByFreeHead(s, id);
      KeptBySearch(FreeHead(s), id);
    } else {
      RotateInv(s);
      RotateFirstReady(s.procs);
      RotatedAt(s.procs);
      KeptBySearch(s.(procs := Rotate(s.procs)), id);
    }
  }

  lemma KeptBySchedule(s: State, id: int)
    requires Inv(s) && NotFreed(s, id)
    ensures Keeps(s, Schedule(s), id)
  {
    hide Inv, FindSem;
    TablesParts(s);
    if !KeepsRunning(s) {
      RequeuedReady(s);
      if s.readyCount > 0 {
        var m := s.(procs := Requeued(s), mode := Running);
        if s.mode.Running? {
          RotateKeepsInv(s, Running, s.cycles);
          RotatedAt(s.procs);
        } else {
          ModeKeepsInv(s, Running, s.cycles);
        }
        KeptBySearch(m, id);
      }
    }
  }

  lemma KeptByChangeState(s: State, pid: int, st: ProcessState, id: int)
    requires Dormant(s, id)
    ensures Keeps(s, ChangeState(s, pid, st).0, id)
  {
    hide Post, FindSem;
    var i := FindPid(s.procs, pid);
    if !Refuses(s, i, st) && st == EXITED { KeptByPost(s, s.procs[i].semId, id); }
  }

  lemma KeptByWait(s: State, other: int, id: int)
    requires other != id && (NoUnit(s, other) ==> s.mode.Running? && s.procs != [])
    ensures Keeps(s, WaitEntry(s, other).0, id)
  {
    hide FindSem, FindPid;
    if FindSem(s.sems, id) < |s.sems| { FindSemIs(WaitEntry(s, other).0.sems, id, FindSem(s.sems, id)); }
  }

  lemma KeptByTable(s: State, s': State, id: int)
    requires |s'.sems| >= |s.sems|
    requires forall k :: 0 <= k < |s.sems| ==>
               s'.sems[k].id == s.sems[k].id && (k == FindSem(s.sems, id) ==> s'.sems[k] == s.sems[k])
    ensures Keeps(s, s', id)
  {
    hide FindSem;
    if FindSem(s.sems, id) < |s.sems| { FindSemIs(s'.sems, id, FindSem(s.sems, id)); }
  }

  /** The process with this pid owns the semaphore. */
  predicate Owns(s: State, pid: int, id: int) {
    var i := FindPid(s.procs, pid);
    i < |s.procs| && s.procs[i].semId == id
  }

  /** waitpid waits on the process's own semaphore, and may end the process. */
  lemma KeptByAwaitExit(s: State, pid: int, id: int)
    requires Inv(s) && CurrentReady(s) && Dormant(s, id) && !Owns(s, pid, id)
    ensures Keeps(s, AwaitExit(s, pid), id)
  {
    hide Inv, WaitEntry, ChangeState, FindSem, FindPid;
    var i := FindPid(s.procs, pid);
    if i < |s.procs| {
      var own := s.procs[i].semId;
      KeptByWait(s, own, id);
      var r := WaitEntry(s, own).0;
      WaitEntryKeepsInv(s, own);
      SameOwnSems(s, own);
      KeptByChangeState(r, pid, TERMINATED, id);
    }
  }

  lemma SameOwnSems(s: State, other: int)
    requires NoUnit(s, other) ==> s.mode.Running? && s.procs != []
    ensures var r := WaitEntry(s, other).0;
      |r.procs| == |s.procs| && forall j :: 0 <= j < |s.procs| ==>
        && r.procs[j].semId == s.procs[j].semId && r.procs[j].pid == s.procs[j].pid
        && (s.procs[j].state == EXITED ==> r.procs[j].state == EXITED)
  {}

  /** Calls that neither wait on the semaphore nor post, open or close it leave it alone. */
  lemma KeptByOther(s: State, op: Op, id: int)
    requires Inv(s) && Legal(s, op) && Dormant(s, id)
    requires op != SemWait(id) && op != SemPost(id) && op != SemClose(id) && !Attaches(s, op, id)
    requires op.WaitPid? ==> !Owns(s, op.pid, id)
    ensures Keeps(s, Before(s, op), id)
  {
    hide Inv, WaitEntry, ChangeState, Post, Close, FindSem, FindPid, FindName, WaitsNowhere, Keeps, Nice;
    KeptByTable(s, s, id);
    match op
    case StartTask(foreground) => KeptByTable(s, Start(s, foreground), id);
    case KillTask(pid) => KeptByChangeState(s, pid, EXITED, id);
    case Terminate(pid) => KeptByChangeState(s, pid, TERMINATED, id);
    case BlockTask(pid) => KeptByChangeState(s, pid, BLOCKED, id);
    case ResumeTask(pid) => KeptByChangeState(s, pid, READY, id);
    case NiceCall(pid, priority) => KeptByNice(s, pid, priority, id);
    case SemOpen(name, value) => KeptByTable(s, Open(s, name, value), id);
    case SemInit(value) => KeptByTable(s, Create(s, value, ""), id);
    case SemClose(other) => KeptByClose(s, other, id);
    case SemWait(other) => KeptByWait(s, other, id);
    case SemPost(other) => KeptByPost(s, other, id);
    case WaitPid(pid) => KeptByAwaitExit(s, pid, id);
    case _ => KeptByTable(s, Before(s, op), id);
  }

  lemma KeptByNice(s: State, pid: int, priority: int, id: int)
    ensures Keeps(s, Nice(s, pid, priority), id)
  {
    KeptByTable(s, Nice(s, pid, priority), id);
  }

  /** No process ever takes the semaphore for its own. */
  lemma StaysPublic(s: State, s': State, id: int)
    requires Lifecycle.Evolves(s, s') && Public(s, id) && id < s.semCounter
    ensures Public(s', id)
  {
    forall j | 0 <= j < |s'.procs| ensures s'.procs[j].semId != id {
      if s'.procs[j].semId < s.semCounter {
        assert Lifecycle.Origin(s, s', s'.procs[j]);
        var p :| p in s.procs && Lifecycle.Continues(p, s'.procs[j], s');
        var i :| 0 <= i < |s.procs| && s.procs[i] == p;
      }
    }
  }

  // ---------------------------------------------------------------- steps and runs

  /** Who waits if the operation is semWait. */
  function Caller(s: State): int {
    if s.mode.Running? && s.procs != [] then s.procs[0].pid else s.idle.pid
  }

  /** What an operation does to a semaphore, as its clients see it. */
  function AfterOp(sem: Handoff.Sem, op: Op, id: int, caller: int): Handoff.Sem {
    if op == SemWait(id) then Handoff.Wait(sem, caller).0
    else if op == SemPost(id) then Handoff.Post(sem).0
    else sem
  }

  ghost predicate WaitersLive(s: State, id: int)
    requires Present(s, id)
  {
    forall pid :: pid in s.sems[FindSem(s.sems, id)].blocked ==> CanRun(s, pid)
  }

  /** How many more processes have the semaphore open after the operation. */
  function MoreUsers(s: State, op: Op, id: int): int {
    if Attaches(s, op, id) then 1 else if op == SemClose(id) then -1 else 0
  }

  /** Opening by name, and closing while others have it open, is counted and changes nothing else. */
  lemma OpenCloseAt(s: State, op: Op, id: int)
    requires Inv(s) && Legal(s, op) && Present(s, id)
    requires Attaches(s, op, id) || (op == SemClose(id) && !LastClose(s, id))
    ensures var b, sem := Before(s, op), s.sems[FindSem(s.sems, id)];
      Present(b, id) && b.sems[FindSem(b.sems, id)] == sem.(attached := sem.attached + MoreUsers(s, op, id))
  {
    hide Inv, FindSem, FindName;
    FindSemIs(Before(s, op).sems, id, FindSem(s.sems, id));
  }

  lemma UsersBefore(s: State, op: Op, id: int)
    requires Inv(s) && Legal(s, op) && Public(s, id) && Present(s, id) && !(op == SemClose(id) && LastClose(s, id))
    ensures var b, sem := Before(s, op), s.sems[FindSem(s.sems, id)];
      && Present(b, id) && b.sems[FindSem(b.sems, id)].name == sem.name
      && b.sems[FindSem(b.sems, id)].attached == sem.attached + MoreUsers(s, op, id)
  {
    hide Inv, FindSem, FindName, Drain, ChangeState;
    var k := FindSem(s.sems, id);
    if Attaches(s, op, id) || op == SemClose(id) {
      OpenCloseAt(s, op, id);
    } else if op == SemWait(id) {
      WaitKeepsUsers(s, id);
    } else if op == SemPost(id) {
      PostLeavesOthers(s, id);
      FindSemIs(Post(s, id).sems, id, k);
    } else {
      KeptByOther(s, op, id);
    }
  }

  lemma WaitKeepsUsers(s: State, id: int)
    requires Present(s, id) && (NoUnit(s, id) ==> s.mode.Running? && s.procs != [])
    ensures var s', k := WaitEntry(s, id).0, FindSem(s.sems, id);
      && Present(s', id) && FindSem(s'.sems, id) == k
      && s'.sems[k].name == s.sems[k].name && s'.sems[k].attached == s.sems[k].attached
  {
    hide FindSem, FindPid;
    FindSemIs(WaitEntry(s, id).0.sems, id, FindSem(s.sems, id));
  }

  /** The part of the operation before its call of the scheduler. */
  lemma BeforeIsHandoff(s: State, op: Op, id: int)
    requires Inv(s) && Legal(s, op) && Public(s, id) && Present(s, id) && !(op == SemClose(id) && LastClose(s, id))
    requires op == SemPost(id) ==> WaitersLive(s, id)
    ensures Present(Before(s, op), id) && ValuesOk(s) && ValuesOk(Before(s, op))
    ensures SemAt(Before(s, op), id) == AfterOp(SemAt(s, id), op, id, Caller(s))
    ensures op == SemWait(id) ==> (CallsScheduler(s, op) <==> !Handoff.Wait(SemAt(s, id), Caller(s)).1)
  {
    hide Inv, FindSem, FindName, WaitEntry, Drain, ChangeState, Close, Open, LastClose, MoreUsers;
    TablesParts(s);
    TablesParts(Before(s, op));
    if op == SemWait(id) {
      WaitIsHandoff(s, id);
    } else if op == SemPost(id) {
      PostIsHandoff(s, id);
    } else if Attaches(s, op, id) || op == SemClose(id) {
      OpenCloseAt(s, op, id);
    } else {
      KeptByOther(s, op, id);
    }
  }

  lemma WaitIsHandoff(s: State, id: int)
    requires Inv(s) && Legal(s, SemWait(id)) && Present(s, id)
    ensures NoUnit(s, id) ==> s.mode.Running? && s.procs != []
    ensures var (s', stops) := WaitEntry(s, id);
      var (sem, now) := Handoff.Wait(Handoff.View(s.sems[FindSem(s.sems, id)]), Caller(s));
      && Present(s', id) && s'.sems[FindSem(s'.sems, id)].value >= 0
      && Handoff.View(s'.sems[FindSem(s'.sems, id)]) == sem && (stops <==> !now) && (stops ==> CurrentReady(s))
  {
    hide Inv, FindSem;
    TablesParts(s);
    var k := FindSem(s.sems, id);
    if CurrentReady(s) { Handoff.KernelWaitIsWait(s, k); }
    FindSemIs(WaitEntry(s, id).0.sems, id, k);
  }

  lemma PostIsHandoff(s: State, id: int)
    requires Inv(s) && Present(s, id) && WaitersLive(s, id)
    ensures var s' := Post(s, id);
      var (sem, woken) := Handoff.Post(Handoff.View(s.sems[FindSem(s.sems, id)]));
      && Present(s', id) && s'.sems[FindSem(s'.sems, id)].value >= 0
      && Handoff.View(s'.sems[FindSem(s'.sems, id)]) == sem
      && (woken.Some? ==>
          var i := FindPid(s.procs, woken.value);
          i < |s.procs| && s'.procs == s.procs[i := s.procs[i].(state := READY, waitsOn := NO_SEM)])
      && (woken == None ==> s'.procs == s.procs)
  {
    hide Inv, FindSem, Drain;
    TablesParts(s);
    var k := FindSem(s.sems, id);
    Handoff.KernelPostIsPost(s, k);
    PostLeavesOthers(s, id);
    FindSemIs(Post(s, id).sems, id, k);
  }

  lemma StepIsHandoff(s: State, op: Op, id: int)
    requires Inv(s) && Legal(s, op) && Public(s, id) && Present(s, id) && !(op == SemClose(id) && LastClose(s, id))
    requires op == SemPost(id) ==> WaitersLive(s, id)
    ensures Public(Step(s, op), id) && Present(Step(s, op), id) && ValuesOk(s) && ValuesOk(Step(s, op))
    ensures SemAt(Step(s, op), id) == AfterOp(SemAt(s, id), op, id, Caller(s))
    ensures Step(s, op).sems[FindSem(Step(s, op).sems, id)].attached ==
            s.sems[FindSem(s.sems, id)].attached + MoreUsers(s, op, id)
  {
    hide Inv, FindSem, Schedule, AfterOp, Lifecycle.Evolves, Before, Public, LastClose, MoreUsers;
    TablesParts(s);
    IdBelow(s, id);
    BeforeIsHandoff(s, op, id);
    UsersBefore(s, op, id);
    var b := Before(s, op);
    Lifecycle.EvolvesBefore(s, op);
    StaysPublic(s, b, id);
    if CallsScheduler(s, op) {
      PublicNotFreed(b, id);
      KeptBySchedule(b, id);
      Lifecycle.EvolvesStep(s, op);
      StaysPublic(s, Step(s, op), id);
    }
    TablesParts(Step(s, op));
  }

  lemma PublicNotFreed(s: State, id: int)
    requires Public(s, id)
    ensures NotFreed(s, id)
  {}

  lemma IdBelow(s: State, id: int)
    requires SemIdsOk(s) && Present(s, id)
    ensures id < s.semCounter
  {}

  /** A run that never destroys the semaphore, and posts it only while those who wait are alive. */
  ghost predicate ClientRun(states: seq<State>, ops: seq<Op>, id: int) {
    && IsRun(states, ops) && Public(states[0], id) && Present(states[0], id)
    && forall i :: 0 <= i < |ops| ==>
         && !(ops[i] == SemClose(id) && LastClose(states[i], id))
         && (ops[i] == SemPost(id) ==> Present(states[i], id) ==> WaitersLive(states[i], id))
  }

  lemma {:induction false} StaysPresent(states: seq<State>, ops: seq<Op>, id: int, i: nat)
    requires ClientRun(states, ops, id) && i <= |ops|
    ensures Inv(states[i]) && Public(states[i], id) && Present(states[i], id) && ValuesOk(states[i])
    decreases i
  {
    hide Inv, Step, Legal, Public, Present, LastClose, MoreUsers;
    RunKeepsInv(states, ops, i);
    TablesParts(states[i]);
    if i == 0 {
    } else {
      StaysPresent(states, ops, id, i - 1);
      assert Next(states[i - 1], ops[i - 1], states[i - 1 + 1]);
      StepIsHandoff(states[i - 1], ops[i - 1], id);
    }
  }

  /** Seen at one semaphore a run of the kernel is a run of Wait and Post: a semWait that names
      it is a Wait by the caller, who gives up the processor exactly if Wait does not let it go
      on; a semPost that names it is a Post, and makes exactly the process READY that Post names;
      every other call and tick leaves its value and its queue alone. */
  lemma RunIsHandoffRun(states: seq<State>, ops: seq<Op>, id: int, i: nat)
    requires ClientRun(states, ops, id) && i < |ops|
    ensures Present(states[i], id) && Present(states[i + 1], id) && ValuesOk(states[i]) && ValuesOk(states[i + 1])
    ensures var sem := SemAt(states[i], id);
      && SemAt(states[i + 1], id) == AfterOp(sem, ops[i], id, Caller(states[i]))
      && (ops[i] == SemWait(id) ==> (CallsScheduler(states[i], ops[i]) <==> !Handoff.Wait(sem, Caller(states[i])).1))
      && (ops[i] == SemPost(id) ==>
          match Handoff.Post(sem).1
          case None => states[i + 1].procs == states[i].procs
          case Some(pid) =>
            var j := FindPid(states[i].procs, pid);
            && j < |states[i].procs|
            && states[i + 1].procs == states[i].procs[j := states[i].procs[j].(state := READY, waitsOn := NO_SEM)])
  {
    hide Inv, Legal, Public, Present, FindSem, AfterOp;
    StaysPresent(states, ops, id, i);
    StaysPresent(states, ops, id, i + 1);
    assert Next(states[i], ops[i], states[i + 1]);
    StepIsHandoff(states[i], ops[i], id);
    BeforeIsHandoff(states[i], ops[i], id);
    if ops[i] == SemPost(id) {
      PostIsHandoff(states[i], id);
    }
  }

  // ---------------------------------------------------------------- what a run adds up to

  /** How often the first n operations wait on the semaphore. */
  function Waits(ops: seq<Op>, id: int, n: nat): nat
    requires n <= |ops|
  {
    if n == 0 then 0 else Waits(ops, id, n - 1) + (if ops[n - 1] == SemWait(id) then 1 else 0)
  }

  function Posts(ops: seq<Op>, id: int, n: nat): nat
    requires n <= |ops|
  {
    if n == 0 then 0 else Posts(ops, id, n - 1) + (if ops[n - 1] == SemPost(id) then 1 else 0)
  }

  /** Opens by its name, less closes. */
  function Joined(states: seq<State>, ops: seq<Op>, id: int, n: nat): int
    requires n <= |ops| < |states|
  {
    if n == 0 then 0 else Joined(states, ops, id, n - 1) + MoreUsers(states[n - 1], ops[n - 1], id)
  }

  /** Units less waiters. */
  function Level(sem: Handoff.Sem): int { sem.value - |sem.blocked| }

  lemma OpMovesLevel(sem: Handoff.Sem, op: Op, id: int, caller: int)
    requires sem.value > 0 ==> sem.blocked == []
    ensures Level(AfterOp(sem, op, id, caller)) ==
            Level(sem) + (if op == SemPost(id) then 1 else 0) - (if op == SemWait(id) then 1 else 0)
    ensures Handoff.Wait(sem, caller).1 <==> Level(sem) > 0
  {}

  /** Units and waiters are what they were, more by the posts and less by the waits since; the
      processes attached are what they were, more by the opens and less by the closes. */
  lemma {:induction false} RunAddsUp(states: seq<State>, ops: seq<Op>, id: int, i: nat)
    requires ClientRun(states, ops, id) && i <= |ops|
    ensures Present(states[0], id) && Present(states[i], id) && ValuesOk(states[0]) && ValuesOk(states[i])
    ensures Level(SemAt(states[i], id)) == Level(SemAt(states[0], id)) + Posts(ops, id, i) - Waits(ops, id, i)
    ensures states[i].sems[FindSem(states[i].sems, id)].attached ==
            states[0].sems[FindSem(states[0].sems, id)].attached + Joined(states, ops, id, i)
    decreases i
  {
    hide Inv, Legal, Step, Public, FindSem, AfterOp, LastClose, MoreUsers, Level;
    StaysPresent(states, ops, id, 0);
    StaysPresent(states, ops, id, i);
    if i == 0 {
    } else {
      RunAddsUp(states, ops, id, i - 1);
      assert Next(states[i - 1], ops[i - 1], states[i - 1 + 1]);
      StaysPresent(states, ops, id, i - 1);
      StepIsHandoff(states[i - 1], ops[i - 1], id);
      OpMovesLevel(SemAt(states[i - 1], id), ops[i - 1], id, Caller(states[i - 1]));
    }
  }

  /** A semWait goes on at once exactly while there have been fewer waits than there were units
      at the start and posts since. */
  lemma GoesOnWhileUnits(states: seq<State>, ops: seq<Op>, id: int, i: nat)
    requires ClientRun(states, ops, id) && i < |ops| && ops[i] == SemWait(id)
    ensures Present(states[0], id) && ValuesOk(states[0])
    ensures !CallsScheduler(states[i], ops[i]) <==>
            Waits(ops, id, i) < Level(SemAt(states[0], id)) + Posts(ops, id, i)
  {
    hide Inv, Legal, Step, Public, FindSem, AfterOp, LastClose, MoreUsers, CallsScheduler;
    RunAddsUp(states, ops, id, i);
    RunIsHandoffRun(states, ops, id, i);
    OpMovesLevel(SemAt(states[i], id), ops[i], id, Caller(states[i]));
  }

  // ---------------------------------------------------------------- new semaphores

  /** The operation creates a semaphore with this value. */
  predicate Creates(s: State, op: Op, v: int) {
    match op
    case SemInit(value) => value == v
    case SemOpen(name, value) => value == v && FindName(s.sems, name) == |s.sems|
    case _ => false
  }

  /** It is given a new id, has the value that was asked for and nobody in its queue, and no
      other semaphore changes. */
  lemma CreatedWithValue(s: State, op: Op, v: int)
    requires Inv(s) && Legal(s, op) && Creates(s, op, v)
    ensures var t, id := Step(s, op), s.semCounter;
      && !Present(s, id) && Present(t, id) && Public(t, id) && v >= 0 && ValuesOk(t)
      && SemAt(t, id) == Handoff.Sem(v, []) && t.sems[FindSem(t.sems, id)].attached == 1
      && SemValue(t, id) == v && forall other :: other != id ==>
         Keeps(s, t, other) && SemValue(t, other) == SemValue(s, other)
  {
    hide Inv, FindSem, FindName, HasSem;
    TablesParts(s);
    OwnIdsBelow(s);
    TablesParts(Step(s, op));
    var t, id := Step(s, op), s.semCounter;
    assert t.sems[|s.sems|].id == id;
    FindSemIs(t.sems, id, |s.sems|);
    forall other | other != id ensures Keeps(s, t, other) && SemValue(t, other) == SemValue(s, other) {
      KeptByTable(s, t, other);
    }
  }

  /** So of the semWaits on a semaphore created with v exactly the first v, and as many more as
      there have been posts, go on at once. */
  lemma FirstWaitsGoOn(s: State, op: Op, v: int, states: seq<State>, ops: seq<Op>, i: nat)
    requires Inv(s) && Legal(s, op) && Creates(s, op, v) && IsRun(states, ops) && states[0] == Step(s, op)
    requires i < |ops| && ops[i] == SemWait(s.semCounter)
    requires forall j :: 0 <= j < |ops| && ops[j] == SemClose(s.semCounter) ==> !LastClose(states[j], s.semCounter)
    requires forall j :: 0 <= j < |ops| && ops[j] == SemPost(s.semCounter) && Present(states[j], s.semCounter) ==>
               WaitersLive(states[j], s.semCounter)
    ensures !CallsScheduler(states[i], ops[i]) <==> Waits(ops, s.semCounter, i) < v + Posts(ops, s.semCounter, i)
  {
    hide Inv, Legal, Step, Public, FindSem, LastClose, CallsScheduler, Creates, WaitersLive;
    CreatedWithValue(s, op, v);
    GoesOnWhileUnits(states, ops, s.semCounter, i);
  }

  /** semClose destroys the semaphore exactly if it has no name or no other process has it open. */
  lemma CloseDestroysIff(s: State, id: int)
    requires Inv(s) && Present(s, id)
    ensures !Present(Close(s, id), id) <==> LastClose(s, id)
  {
    hide Inv, FindSem, HasSem;
    TablesParts(s);
    var k := FindSem(s.sems, id);
    if LastClose(s, id) {
      CloseSems(s, k);
      assert Close(s, id).sems == Without(s.sems, k);
      NotFound(Close(s, id).sems, id);
    } else {
      FindSemIs(Close(s, id).sems, id, k);
    }
  }

  lemma NotFound(sems: seq<Sem>, id: int)
    requires !HasSem(sems, id)
    ensures FindSem(sems, id) == |sems|
  {}

  /** semValue answers the value, and -1 exactly for an id that no semaphore has. */
  lemma ValueOrUnknown(s: State, id: int)
    requires Inv(s)
    ensures SemValue(s, id) == -1 <==> !Present(s, id)
    ensures Present(s, id) ==> ValuesOk(s) && SemValue(s, id) == SemAt(s, id).value
  {
    hide FindSem;
    TablesParts(s);
  }

  /** A wait, a post or a close of an id that no semaphore has does nothing. */
  lemma UnknownIsIgnored(s: State, op: Op, id: int)
    requires Inv(s) && Legal(s, op) && !Present(s, id)
    requires op == SemWait(id) || op == SemPost(id) || op == SemClose(id)
    ensures Step(s, op) == s
  {
    hide Inv, FindSem;
  }

  /** Two letters that differ in case only. */
  predicate Cases(a: char, b: char) { 'A' <= a <= 'Z' && b as int == a as int + 32 }

  /** Names are the same if they differ in the case of letters only, and in no other way. */
  lemma SameNameIsCase(a: string, b: string)
    ensures SameName(a, b) <==> |a| == |b| && forall i :: 0 <= i < |a| ==>
            a[i] == b[i] || Cases(a[i], b[i]) || Cases(b[i], a[i])
  {}

  /** A semaphore created by semOpen is the one that a later semOpen of its name finds, in any
      case of letters. */
  lemma OpenAgainAttaches(s: State, name: string, v: int, other: string, w: int)
    requires Inv(s) && Legal(s, SemOpen(name, v)) && Creates(s, SemOpen(name, v), v) && SameName(name, other)
    ensures Attaches(Step(s, SemOpen(name, v)), SemOpen(other, w), s.semCounter)
  {
    hide Inv, FindSem, FindName, SameName;
    CreatedWithValue(s, SemOpen(name, v), v);
    var t := Step(s, SemOpen(name, v));
    FindSemIs(t.sems, s.semCounter, |s.sems|) by { NewId(s); }
    forall j | 0 <= j < |s.sems| ensures !SameName(t.sems[j].name,
        other) { SameNameTransfers(t.sems[j].name, name, other); }
    FindNameIs(t.sems, other, |s.sems|);
  }

  lemma NewId(s: State)
    requires Inv(s)
    ensures forall j :: 0 <= j < |s.sems| ==> s.sems[j].id != s.semCounter
  {}

  lemma SameNameTransfers(a: string, b: string, c: string)
    requires SameName(b, c)
    ensures SameName(a, b) <==> SameName(a, c)
  {}
}

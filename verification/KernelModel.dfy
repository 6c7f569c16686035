/** Scheduler and semaphores (Kernel/scheduler/processManager.c, Kernel/semaphores/sem.c)
    as functions on one state. Every system call runs with interrupts off up to the point
    where it gives up the processor, so each is one step. */
module KernelModel {
  import opened Wrappers

  datatype ProcessState = READY | BLOCKED | EXITED | TERMINATED

  const NO_SEM := -1

  /** waitsOn is a history variable: the semaphore on which the process blocked in semWait,
      and NO_SEM once it has been made READY again. */
  datatype Pcb = Pcb(pid: int, state: ProcessState, priority: int, semId: int, waitsOn: int)

  datatype Sem = Sem(id: int, value: int, blocked: seq<int>, attached: int, name: string)

  /** Before the first tick, running the idle process, or running procs[0]. */
  datatype Mode = NotStarted | Idling | Running

  /** procs is the current process, when it is not the idle one, followed by the queue. */
  datatype State = State(procs: seq<Pcb>, mode: Mode, cycles: int, readyCount: int, pidCounter: int,
                         sems: seq<Sem>, semCounter: int, idle: Pcb, initPid: int, userlandPid: int)

  const MAX_PRIO := 20

  predicate Dead(st: ProcessState) { st == EXITED || st == TERMINATED }

  function IsReady(p: Pcb): nat { if p.state == READY then 1 else 0 }

  function NumReady(procs: seq<Pcb>): nat {
    if procs == [] then 0 else IsReady(procs[0]) + NumReady(procs[1..])
  }

  /** getProcess: the first process with this pid, or the length of the list. */
  function FindPid(procs: seq<Pcb>, pid: int): (i: nat)
    ensures i <= |procs|
    ensures i < |procs| ==> procs[i].pid == pid
    ensures forall j :: 0 <= j < i ==> procs[j].pid != pid
  {
    if procs == [] || procs[0].pid == pid then 0 else 1 + FindPid(procs[1..], pid)
  }

  function FindSem(sems: seq<Sem>, id: int): (k: nat)
    ensures k <= |sems|
    ensures k < |sems| ==> sems[k].id == id
    ensures forall j :: 0 <= j < k ==> sems[j].id != id
  {
    if sems == [] || sems[0].id == id then 0 else 1 + FindSem(sems[1..], id)
  }

  // ---------------------------------------------------------------- process states

  /** The end of changeState: the new state and the count of ready processes. */
  function SetState(s: State, i: nat, st: ProcessState): State
    requires i < |s.procs|
  {
    var was := s.procs[i].state;
    s.(procs := s.procs[i := s.procs[i].(state := st, waitsOn := if st == READY then NO_SEM else s.procs[i].waitsOn)],
       readyCount := s.readyCount + (if was != READY && st == READY then 1 else 0)
                                  - (if was == READY && st != READY then 1 else 0))
  }

  /** changeState refuses unknown and dead processes. */
  predicate Refuses(s: State, i: nat, st: ProcessState)
    requires i <= |s.procs|
  {
    i == |s.procs| || (s.procs[i].state == EXITED && st != TERMINATED) || s.procs[i].state == TERMINATED
  }

  /** resumeTask. */
  function Resume(s: State, pid: int): (State, bool) {
    var i := FindPid(s.procs, pid);
    if Refuses(s, i, READY) then (s, false) else (SetState(s, i, READY), true)
  }

  // ---------------------------------------------------------------- semaphores

  function WithSem(s: State, k: nat, sem: Sem): State
    requires k < |s.sems|
  {
    s.(sems := s.sems[k := sem])
  }

  /** The loop of semPost on semaphore k: wake the first waiter that can still run, or
      count the post when there is none. */
  function Drain(s: State, k: nat): State
    requires k < |s.sems|
    decreases |s.sems[k].blocked|
  {
    var sem := s.sems[k];
    if sem.blocked == [] then WithSem(s, k, sem.(value := sem.value + 1))
    else
      var r := Resume(WithSem(s, k, sem.(blocked := sem.blocked[1..])), sem.blocked[0]);
      if r.1 then r.0 else Drain(r.0, k)
  }

  function Post(s: State, id: int): State {
    var k := FindSem(s.sems, id);
    if k == |s.sems| then s else Drain(s, k)
  }

  function Without<T>(l: seq<T>, k: nat): seq<T>
    requires k < |l|
  {
    l[..k] + l[k + 1..]
  }

  /** semClose: a nameless semaphore, or one with its last process, is destroyed. */
  function Close(s: State, id: int): State {
    var k := FindSem(s.sems, id);
    if k == |s.sems| then s
    else if s.sems[k].name == "" || s.sems[k].attached == 1 then s.(sems := Without(s.sems, k))
    else WithSem(s, k, s.sems[k].(attached := s.sems[k].attached - 1))
  }

  function SemValue(s: State, id: int): int {
    var k := FindSem(s.sems, id);
    if k == |s.sems| then -1 else s.sems[k].value
  }

  function Create(s: State, value: int, name: string): State {
    s.(sems := s.sems + [Sem(s.semCounter, value, [], 1, name)], semCounter := s.semCounter + 1)
  }

  /** changeState. A process that exits posts its own semaphore first. */
  function ChangeState(s: State, pid: int, st: ProcessState): (State, bool) {
    var i := FindPid(s.procs, pid);
    if Refuses(s, i, st) then (s, false)
    else
      var s1 := if st == EXITED then Post(s, s.procs[i].semId) else s;
      PostKeepsPids(s, s.procs[i].semId);
      (SetState(s1, i, st), true)
  }

  lemma {:induction false} DrainKeepsPids(s: State, k: nat)
    requires k < |s.sems|
    ensures |Drain(s, k).procs| == |s.procs| && |Drain(s, k).sems| == |s.sems|
    decreases |s.sems[k].blocked|
  {
    var sem := s.sems[k];
    if sem.blocked == [] {
    } else {
      var r := Resume(WithSem(s, k, sem.(blocked := sem.blocked[1..])), sem.blocked[0]);
      if !r.1 { DrainKeepsPids(r.0, k); }
    }
  }

  lemma PostKeepsPids(s: State, id: int)
    ensures |Post(s, id).procs| == |s.procs| && |Post(s, id).sems| == |s.sems|
  {
    var k := FindSem(s.sems, id);
    if k < |s.sems| { DrainKeepsPids(s, k); }
  }

  // ---------------------------------------------------------------- the scheduler

  /** freeProcess of the process just dequeued, and the next dequeue. */
  function FreeHead(s: State): State
    requires s.procs != []
  {
    var p := s.procs[0];
    var s1 := if SemValue(s, p.semId) == 0 then Post(s, p.semId) else s;
    PostKeepsPids(s, p.semId);
    var s2 := Close(s1, p.semId);
    s2.(procs := s2.procs[1..], pidCounter := s2.pidCounter - (if p.pid == s2.pidCounter - 1 then 1 else 0))
  }

  function Rotate<T>(l: seq<T>): seq<T>
    requires l != []
  {
    l[1..] + [l[0]]
  }

  function FirstReady(procs: seq<Pcb>): (i: nat)
    ensures i <= |procs|
    ensures forall j :: 0 <= j < i ==> procs[j].state != READY
    ensures i < |procs| ==> procs[i].state == READY
  {
    if procs == [] || procs[0].state == READY then 0 else 1 + FirstReady(procs[1..])
  }

  /** procs' is procs with some of its BLOCKED processes made READY. */
  predicate Woken(procs: seq<Pcb>, procs': seq<Pcb>) {
    && |procs'| == |procs|
    && forall i :: 0 <= i < |procs| ==>
         procs'[i] == procs[i] || (!Dead(procs[i].state) && procs'[i] == procs[i].(state := READY, waitsOn := NO_SEM))
  }

  lemma {:induction false} DrainWakes(s: State, k: nat)
    requires k < |s.sems|
    ensures Woken(s.procs, Drain(s, k).procs)
    ensures Drain(s, k).(procs := s.procs, readyCount := s.readyCount, sems := s.sems) == s
    decreases |s.sems[k].blocked|
  {
    var sem := s.sems[k];
    if sem.blocked == [] {
    } else {
      var r := Resume(WithSem(s, k, sem.(blocked := sem.blocked[1..])), sem.blocked[0]);
      if !r.1 { DrainWakes(r.0, k); }
    }
  }

  lemma PostWakes(s: State, id: int)
    ensures Woken(s.procs, Post(s, id).procs)
    ensures Post(s, id).(procs := s.procs, readyCount := s.readyCount, sems := s.sems) == s
  {
    var k := FindSem(s.sems, id);
    if k < |s.sems| { DrainWakes(s, k); }
  }

  lemma FreeHeadWakes(s: State)
    requires s.procs != []
    ensures Woken(s.procs[1..], FreeHead(s).procs)
    ensures FreeHead(s).mode == s.mode && FreeHead(s).cycles == s.cycles && FreeHead(s).idle == s.idle
  {
    PostWakes(s, s.procs[0].semId);
  }

  lemma WokenFirstReady(a: seq<Pcb>, b: seq<Pcb>)
    requires Woken(a, b)
    ensures FirstReady(b) <= FirstReady(a)
  {
    var i := FirstReady(a);
    assert i < |a| ==> b[i].state == READY;
  }

  /** The search loop of scheduleTask. It ends because waking a process never moves the
      first ready one further away. */
  function Search(s: State): (r: State)
    requires FirstReady(s.procs) < |s.procs|
    ensures r.procs != [] && r.procs[0].state == READY
    ensures r.mode == s.mode && r.cycles == s.cycles && r.idle == s.idle
    decreases FirstReady(s.procs)
  {
    if s.procs[0].state == READY then s
    else if s.procs[0].state == TERMINATED then
      FreeHeadWakes(s);
      WokenFirstReady(s.procs[1..], FreeHead(s).procs);
      Search(FreeHead(s))
    else
      RotateFirstReady(s.procs);
      Search(s.(procs := Rotate(s.procs)))
  }

  lemma RotateFirstReady(procs: seq<Pcb>)
    requires FirstReady(procs) < |procs|
    ensures procs[0].state != READY ==> FirstReady(Rotate(procs)) == FirstReady(procs) - 1
    ensures FirstReady(Rotate(procs)) < |procs|
  {
    var r := Rotate(procs);
    assert procs[0].state == READY ==> r[|procs| - 1].state == READY;
    if procs[0].state != READY {
      assert r[FirstReady(procs) - 1] == procs[FirstReady(procs)];
      assert forall i :: 0 <= i < FirstReady(procs) - 1 ==> r[i] == procs[i + 1];
    }
  }

  lemma {:induction false} ReadyExists(procs: seq<Pcb>)
    ensures NumReady(procs) > 0 <==> FirstReady(procs) < |procs|
  {
    if procs == [] {
    } else {
      ReadyExists(procs[1..]);
    }
  }

  /** The queue once the current process has been put back into it. */
  function Requeued(s: State): seq<Pcb>
    requires s.mode.Running? ==> s.procs != []
  {
    if s.mode.Running? then Rotate(s.procs) else s.procs
  }

  predicate Counted(s: State) {
    && s.readyCount == NumReady(s.procs)
    && (s.mode.Running? ==> s.procs != [])
  }

  predicate KeepsRunning(s: State)
    requires s.mode.Running? ==> s.procs != []
  {
    s.cycles > 0 && match s.mode
      case NotStarted => false
      case Idling => s.idle.state == READY
      case Running => s.procs[0].state == READY
  }

  /** scheduleTask. */
  function Schedule(s: State): State
    requires Counted(s)
  {
    if KeepsRunning(s) then s.(cycles := s.cycles - 1)
    else if s.readyCount > 0 then
      RequeuedReady(s);
      var r := Search(s.(procs := Requeued(s), mode := Running));
      r.(cycles := r.procs[0].priority)
    else s.(procs := Requeued(s), mode := Idling, cycles := s.idle.priority)
  }

  lemma RequeuedReady(s: State)
    requires Counted(s)
    ensures |Requeued(s)| == |s.procs|
    ensures s.readyCount > 0 <==> FirstReady(Requeued(s)) < |Requeued(s)|
  {
    ReadyExists(s.procs);
    var i := FirstReady(s.procs);
    var r := Requeued(s);
    if s.mode.Running? {
      if i < |r| {
        RotateFirstReady(s.procs);
      } else {
        assert forall j :: 0 <= j < |r| ==> r[j] == s.procs[if j + 1 < |r| then j + 1 else 0];
      }
    }
  }

  // ---------------------------------------------------------------- system calls

  predicate IsCurrent(s: State, pid: int) {
    s.mode.Running? && s.procs != [] && s.procs[0].pid == pid
  }

  /** What blockTask and killTask do after changeState: leave the processor if need be. */
  function Yielding(s: State, r: (State, bool), pid: int): State
    requires r.1 && IsCurrent(s, pid) ==> Counted(r.0)
  {
    if r.1 && IsCurrent(s, pid) then Schedule(r.0) else r.0
  }

  /** semWait finds the semaphore, and no unit in it. */
  predicate NoUnit(s: State, id: int) {
    var k := FindSem(s.sems, id);
    k < |s.sems| && s.sems[k].value <= 0
  }

  /** The two outcomes of semWait, without the switch to another process. */
  function WaitEntry(s: State, id: int): (State, bool)
    requires NoUnit(s, id) ==> s.mode.Running? && s.procs != []
  {
    var k := FindSem(s.sems, id);
    if k == |s.sems| then (s, false)
    else if s.sems[k].value > 0 then (WithSem(s, k, s.sems[k].(value := s.sems[k].value - 1)), false)
    else
      var joined := WithSem(s, k, s.sems[k].(blocked := s.sems[k].blocked + [s.procs[0].pid]));
      var r := ChangeState(joined, s.procs[0].pid, BLOCKED);
      (if r.1 then r.0.(procs := r.0.procs[0 := r.0.procs[0].(waitsOn := id)]) else r.0, r.1)
  }

  /** startTask: a new READY process at the end of the queue, with its own semaphore. */
  function Start(s: State, foreground: bool): State {
    var s1 := Create(s, 0, "");
    s1.(procs := s.procs + [Pcb(s.pidCounter, READY, if foreground then 2 else 1, s.semCounter, NO_SEM)],
        pidCounter := s.pidCounter + 1, readyCount := s.readyCount + 1)
  }

  /** semOpen: attach to the named semaphore, or create it. */
  function Open(s: State, name: string, value: int): State {
    var k := FindName(s.sems, name);
    if k == |s.sems| then Create(s, value, name)
    else WithSem(s, k, s.sems[k].(attached := s.sems[k].attached + 1))
  }

  function ToLower(c: char): char { if 'A' <= c <= 'Z' then c + 32 as char else c }

  /** strcasecmp answers 0. */
  predicate SameName(a: string, b: string) {
    |a| == |b| && forall i :: 0 <= i < |a| ==> ToLower(a[i]) == ToLower(b[i])
  }

  function FindName(sems: seq<Sem>, name: string): (k: nat)
    ensures k <= |sems|
    ensures k < |sems| ==> SameName(sems[k].name, name)
    ensures forall j :: 0 <= j < k ==> !SameName(sems[j].name, name)
  {
    if sems == [] || SameName(sems[0].name, name) then 0 else 1 + FindName(sems[1..], name)
  }

  lemma FindNameIs(sems: seq<Sem>, name: string, k: nat)
    requires k <= |sems| && forall j :: 0 <= j < k ==> !SameName(sems[j].name, name)
    requires k < |sems| ==> SameName(sems[k].name, name)
    ensures FindName(sems, name) == k
  {
    hide SameName;
  }

  /** nice: only processes in the queue are found, and the priority is clamped. */
  function Nice(s: State, pid: int, priority: int): State {
    var first := if s.mode.Running? && s.procs != [] then 1 else 0;
    var i := first + FindPid(s.procs[first..], pid);
    if i == |s.procs| then s
    else
      var clamped := if priority < 0 then 0 else if priority > MAX_PRIO then MAX_PRIO else priority;
      s.(procs := s.procs[i := s.procs[i].(priority := clamped)])
  }
}

/** The invariant of the scheduler and its semaphores, step by step. */
module KernelInvariant {
  import opened Wrappers
  import opened KernelModel

  predicate WaitsAt(s: State, k: int, i: int, pid: int) {
    0 <= k < |s.sems| && 0 <= i < |s.sems[k].blocked| && s.sems[k].blocked[i] == pid
  }

  /** Pids are distinct and below the counter, though freeProcess may decrement it. */
  ghost predicate PidsOk(s: State) {
    && (forall i :: 0 <= i < |s.procs| ==> s.procs[i].pid < s.pidCounter && s.procs[i].pid != s.idle.pid)
    && (forall i, j :: 0 <= i < j < |s.procs| ==> s.procs[i].pid != s.procs[j].pid)
    && s.idle.pid < s.pidCounter
  }

  ghost predicate SemIdsOk(s: State) {
    && (forall k :: 0 <= k < |s.sems| ==> 0 <= s.sems[k].id < s.semCounter)
    && (forall k, l :: 0 <= k < l < |s.sems| ==> s.sems[k].id != s.sems[l].id)
  }

  /** Values are never negative, and a positive value means that nobody waits. */
  ghost predicate ValuesOk(s: State) {
    forall k :: 0 <= k < |s.sems| ==> s.sems[k].value >= 0 && (s.sems[k].value > 0 ==> s.sems[k].blocked == [])
  }

  /** Nobody waits twice, neither on one semaphore nor on two. */
  ghost predicate WaitsOnce(s: State) {
    forall k, i, l, j, pid :: WaitsAt(s, k, i, pid) && WaitsAt(s, l, j, pid) ==> k == l && i == j
  }

  ghost predicate Queued(s: State, pid: int, id: int) {
    exists k, i :: WaitsAt(s, k, i, pid) && s.sems[k].id == id
  }

  /** A live process whose pid is in a queue is BLOCKED there by semWait. */
  ghost predicate WaitersStopped(s: State) {
    && (forall k, i, j :: 0 <= j < |s.procs| && WaitsAt(s, k, i, s.procs[j].pid) ==>
          Dead(s.procs[j].state) || (s.procs[j].state == BLOCKED && s.procs[j].waitsOn == s.sems[k].id))
    && (forall j :: 0 <= j < |s.procs| && s.procs[j].state == READY ==> s.procs[j].waitsOn == NO_SEM)
  }

  /** No waiter is lost: a process blocked by semWait is in the queue of its semaphore, for
      as long as that semaphore exists. */
  ghost predicate WaitersQueued(s: State) {
    forall j :: 0 <= j < |s.procs| && s.procs[j].waitsOn != NO_SEM ==>
      && s.procs[j].waitsOn < s.semCounter
      && (Dead(s.procs[j].state) || Queued(s, s.procs[j].pid, s.procs[j].waitsOn)
         || !HasSem(s.sems, s.procs[j].waitsOn))
  }

  ghost predicate HasSem(sems: seq<Sem>, id: int) {
    exists k :: 0 <= k < |sems| && sems[k].id == id
  }

  /** Every process has a nameless semaphore of its own, which exists as long as it does;
      its value is 0 while the process has not exited. exempt is the semaphore of the
      process that is exiting right now. */
  ghost predicate OwnSems(s: State, exempt: int) {
    && (forall j :: 0 <= j < |s.procs| ==> HasSem(s.sems, s.procs[j].semId))
    && (forall j, k :: 0 <= j < |s.procs| && 0 <= k < |s.sems| && s.sems[k].id == s.procs[j].semId ==>
          s.sems[k].name == "" && (Dead(s.procs[j].state) || s.sems[k].id == exempt || s.sems[k].value == 0))
    && (forall i, j :: 0 <= i < j < |s.procs| ==> s.procs[i].semId != s.procs[j].semId)
  }

  ghost predicate Bounds(s: State) {
    && 0 <= s.semCounter && s.idle.state == READY && 0 <= s.idle.priority <= MAX_PRIO && 0 <= s.cycles <= MAX_PRIO
    && (forall j :: 0 <= j < |s.procs| ==> 0 <= s.procs[j].priority <= MAX_PRIO)
  }

  ghost predicate TablesOk(s: State, exempt: int) {
    Counted(s) && PidsOk(s) && SemIdsOk(s) && ValuesOk(s) && OwnSems(s, exempt) && Bounds(s)
  }

  ghost predicate IdleNeverWaits(s: State) {
    forall k, i :: !WaitsAt(s, k, i, s.idle.pid)
  }

  ghost predicate WaitsOk(s: State) {
    WaitsOnce(s) && WaitersStopped(s) && WaitersQueued(s) && IdleNeverWaits(s)
  }

  ghost predicate InvExcept(s: State, exempt: int) {
    TablesOk(s, exempt) && WaitsOk(s)
  }

  ghost predicate Inv(s: State) { InvExcept(s, NO_SEM) }

  // ---------------------------------------------------------------- counting

  lemma {:induction false} NumReadyConcat(a: seq<Pcb>, b: seq<Pcb>)
    ensures NumReady(a + b) == NumReady(a) + NumReady(b)
  {
    if a == [] {
      assert a + b == b;
    } else {
      assert (a + b)[1..] == a[1..] + b;
      NumReadyConcat(a[1..], b);
    }
  }

  lemma NumReadyUpdate(a: seq<Pcb>, i: nat, p: Pcb)
    requires i < |a|
    ensures NumReady(a[i := p]) == NumReady(a) - IsReady(a[i]) + IsReady(p)
  {
    assert a == a[..i] + [a[i]] + a[i + 1..];
    assert a[i := p] == a[..i] + [p] + a[i + 1..];
    NumReadyConcat(a[..i] + [a[i]], a[i + 1..]);
    NumReadyConcat(a[..i], [a[i]]);
    NumReadyConcat(a[..i] + [p], a[i + 1..]);
    NumReadyConcat(a[..i], [p]);
  }

  lemma NumReadyRotate(a: seq<Pcb>)
    requires a != []
    ensures NumReady(Rotate(a)) == NumReady(a)
  {
    NumReadyConcat(a[1..], [a[0]]);
  }

  // ---------------------------------------------------------------- changing a process

  lemma SameQueues(s: State, s': State)
    requires |s.sems| == |s'.sems| && forall k :: 0 <= k < |s.sems| ==>
             s'.sems[k].id == s.sems[k].id && s'.sems[k].blocked == s.sems[k].blocked
    ensures forall k, l, pid :: WaitsAt(s', k, l, pid) <==> WaitsAt(s, k, l, pid)
    ensures forall pid, id :: Queued(s', pid, id) <==> Queued(s, pid, id)
    ensures forall id :: HasSem(s'.sems, id) <==> HasSem(s.sems, id)
  {
    SameSemIds(s.sems, s'.sems);
    SameSemIds(s'.sems, s.sems);
    forall pid, id | Queued(s, pid, id) ensures Queued(s', pid, id) {
      var k, i :| WaitsAt(s, k, i, pid) && s.sems[k].id == id;
      assert WaitsAt(s', k, i, pid);
    }
    forall pid, id | Queued(s', pid, id) ensures Queued(s, pid, id) {
      var k, i :| WaitsAt(s', k, i, pid) && s'.sems[k].id == id;
      assert WaitsAt(s, k, i, pid);
    }
  }

  lemma SetStateKeepsTables(s: State, i: nat, st: ProcessState, exempt: int)
    requires TablesOk(s, exempt) && i < |s.procs|
    requires !Dead(st) ==> !Dead(s.procs[i].state)
    ensures TablesOk(SetState(s, i, st), if Dead(st) && s.procs[i].semId == exempt then NO_SEM else exempt)
  {
    hide NumReady, HasSem;
    NumReadyUpdate(s.procs, i, SetState(s, i, st).procs[i]);
  }

  /** A process that waits nowhere may become READY or BLOCKED, and any process may die. */
  lemma SetStateKeepsInv(s: State, i: nat, st: ProcessState, exempt: int)
    requires InvExcept(s, exempt) && i < |s.procs|
    requires !Dead(st) ==> !Dead(s.procs[i].state) && s.procs[i].waitsOn == NO_SEM
    requires !Dead(st) ==> forall k, j :: !WaitsAt(s, k, j, s.procs[i].pid)
    ensures InvExcept(SetState(s, i, st), if Dead(st) && s.procs[i].semId == exempt then NO_SEM else exempt)
  {
    SetStateKeepsTables(s, i, st, exempt);
    hide TablesOk;
    SameQueues(s, SetState(s, i, st));
  }

  /** The first waiter leaves the queue of semaphore k. */
  function Popped(s: State, k: nat): State
    requires k < |s.sems| && s.sems[k].blocked != []
  {
    WithSem(s, k, s.sems[k].(blocked := s.sems[k].blocked[1..]))
  }

  lemma PoppedQueues(s: State, k: nat)
    requires k < |s.sems| && s.sems[k].blocked != [] && WaitsOnce(s)
    ensures forall l, j, pid :: WaitsAt(Popped(s, k), l, j, pid) <==>
            WaitsAt(s, l, if l == k then j + 1 else j, pid) && j >= 0
    ensures forall l, j :: !WaitsAt(Popped(s, k), l, j, s.sems[k].blocked[0])
    ensures forall pid, id :: pid != s.sems[k].blocked[0] ==> (Queued(s, pid, id) ==> Queued(Popped(s, k), pid, id))
    ensures forall id :: HasSem(Popped(s, k).sems, id) <==> HasSem(s.sems, id)
  {
    var s' := Popped(s, k);
    SameSemIds(s.sems, s'.sems);
    SameSemIds(s'.sems, s.sems);
    assert WaitsAt(s, k, 0, s.sems[k].blocked[0]);
    forall l, j, pid | WaitsAt(s', l, j, pid) ensures WaitsAt(s, l, if l == k then j + 1 else j, pid) {}
    forall pid, id | pid != s.sems[k].blocked[0] && Queued(s, pid, id) ensures Queued(s', pid, id) {
      var l, j :| WaitsAt(s, l, j, pid) && s.sems[l].id == id;
      assert WaitsAt(s', l, if l == k then j - 1 else j, pid);
    }
  }

  lemma PopKeepsTables(s: State, k: nat, exempt: int)
    requires TablesOk(s, exempt) && k < |s.sems| && s.sems[k].blocked != []
    ensures TablesOk(Popped(s, k), exempt)
  {
    SameSemIds(s.sems, Popped(s, k).sems);
  }

  /** A waiter that can no longer run may be dropped. */
  lemma PopDeadKeepsInv(s: State, k: nat, exempt: int)
    requires InvExcept(s, exempt) && k < |s.sems| && s.sems[k].blocked != [] && !CanRun(s, s.sems[k].blocked[0])
    ensures InvExcept(Popped(s, k), exempt)
  {
    PopKeepsTables(s, k, exempt);
    PoppedQueues(s, k);
    forall j | 0 <= j < |s.procs| && !Dead(s.procs[j].state) ensures s.procs[j].pid != s.sems[k].blocked[0] {
      FindPidUnique(s.procs, j);
    }
    hide TablesOk;
  }

  /** A waiter that can run is made READY. */
  lemma WakeKeepsInv(s: State, k: nat, exempt: int)
    requires InvExcept(s, exempt) && k < |s.sems| && s.sems[k].blocked != [] && CanRun(s, s.sems[k].blocked[0])
    ensures InvExcept(SetState(Popped(s, k), FindPid(s.procs, s.sems[k].blocked[0]), READY), exempt)
  {
    hide TablesOk, HasSem, Queued;
    PopKeepsTables(s, k, exempt);
    SetStateKeepsTables(Popped(s, k), FindPid(s.procs, s.sems[k].blocked[0]), READY, exempt);
    PoppedQueues(s, k);
    var s1, i := Popped(s, k), FindPid(s.procs, s.sems[k].blocked[0]);
    DistinctPids(s, exempt);
    SameQueues(s1, SetState(s1, i, READY));
    assert WaitsAt(s, k, 0, s.procs[i].pid);
  }

  lemma DistinctPids(s: State, exempt: int)
    requires TablesOk(s, exempt)
    ensures forall i, j :: 0 <= i < j < |s.procs| ==> s.procs[i].pid != s.procs[j].pid
  {}

  lemma SameSemIds(a: seq<Sem>, b: seq<Sem>)
    requires |a| == |b| && forall k :: 0 <= k < |a| ==> a[k].id == b[k].id
    ensures forall id :: HasSem(a, id) ==> HasSem(b, id)
  {
    forall id | HasSem(a, id) ensures HasSem(b, id) {
      var k :| 0 <= k < |a| && a[k].id == id;
      assert b[k].id == id;
    }
  }

  /** Changing the value or the attached count of a semaphore. */
  lemma ValueKeepsInv(s: State, k: nat, value: int, attached: int, exempt: int)
    requires InvExcept(s, exempt) && k < |s.sems|
    requires value >= 0 && (value > 0 ==> s.sems[k].blocked == [])
    requires value <= s.sems[k].value || Postable(s, k, exempt)
    ensures InvExcept(WithSem(s, k, s.sems[k].(value := value, attached := attached)), exempt)
  {
    SameQueues(s, WithSem(s, k, s.sems[k].(value := value, attached := attached)));
  }

  lemma FindPidUnique(procs: seq<Pcb>, j: nat)
    requires j < |procs| && forall a, b :: 0 <= a < b < |procs| ==> procs[a].pid != procs[b].pid
    ensures FindPid(procs, procs[j].pid) == j
  {}

  lemma FindSemUnique(s: State, k: nat)
    requires SemIdsOk(s) && k < |s.sems|
    ensures FindSem(s.sems, s.sems[k].id) == k
  {}

  // ---------------------------------------------------------------- semPost

  /** May semaphore k be posted without giving a live process's own semaphore a value? */
  ghost predicate Postable(s: State, k: nat, exempt: int)
    requires k < |s.sems|
  {
    s.sems[k].id == exempt || forall j :: 0 <= j < |s.procs| && s.procs[j].semId == s.sems[k].id ==>
        Dead(s.procs[j].state)
  }

  lemma ValueNotNegative(s: State, k: nat, exempt: int)
    requires InvExcept(s, exempt) && k < |s.sems|
    ensures s.sems[k].value >= 0
  {}

  lemma {:induction false} DrainKeepsInv(s: State, k: nat, exempt: int)
    requires InvExcept(s, exempt) && k < |s.sems| && Postable(s, k, exempt)
    ensures InvExcept(Drain(s, k), exempt)
    decreases |s.sems[k].blocked|
  {
    hide InvExcept, WaitsAt;
    ValueNotNegative(s, k, exempt);
    var sem := s.sems[k];
    if sem.blocked == [] {
      ValueKeepsInv(s, k, sem.value + 1, sem.attached, exempt);
    } else if CanRun(s, sem.blocked[0]) {
      WakeKeepsInv(s, k, exempt);
    } else {
      PopDeadKeepsInv(s, k, exempt);
      DrainKeepsInv(Popped(s, k), k, exempt);
    }
  }

  /** What a post does to semaphore k, in one go: the waiters in front that can no longer
      run are skipped; the first one that can is made READY and the value stays; if there is
      none the queue ends empty and the value grows by one. Nothing else changes. */
  ghost predicate PostLaw(s: State, s': State, k: nat)
    requires k < |s.sems|
  {
    var sem := s.sems[k];
    && (forall w: nat :: FirstLive(s, k, w) ==> s' == Wake(s, k, w))
    && ((forall w: nat :: !FirstLive(s, k, w)) ==> s' == WithSem(s, k, sem.(blocked := [], value := sem.value + 1)))
  }

  /** Waiter w of semaphore k becomes READY, and it and those before it leave the queue. */
  function Wake(s: State, k: nat, w: nat): State
    requires k < |s.sems| && FirstLive(s, k, w)
  {
    SetState(WithSem(s, k, s.sems[k].(blocked := s.sems[k].blocked[w + 1..])),
        FindPid(s.procs, s.sems[k].blocked[w]), READY)
  }

  predicate CanRun(s: State, pid: int) {
    var i := FindPid(s.procs, pid);
    i < |s.procs| && !Dead(s.procs[i].state)
  }

  predicate FirstLive(s: State, k: nat, w: nat)
    requires k < |s.sems|
  {
    && w < |s.sems[k].blocked| && CanRun(s, s.sems[k].blocked[w])
    && forall v :: 0 <= v < w ==> !CanRun(s, s.sems[k].blocked[v])
  }

  lemma {:induction false} PostWakesFirstLive(s: State, k: nat)
    requires k < |s.sems|
    ensures PostLaw(s, Drain(s, k), k)
    decreases |s.sems[k].blocked|
  {
    hide FindPid;
    var sem := s.sems[k];
    if sem.blocked == [] {
      assert Drain(s, k) == WithSem(s, k, sem.(blocked := [], value := sem.value + 1));
    } else if CanRun(s, sem.blocked[0]) {
      assert FirstLive(s, k, 0);
      forall w: nat | FirstLive(s, k, w) ensures Drain(s, k) == Wake(s, k, w) { FirstLiveUnique(s, k, 0, w); }
    } else {
      var s1 := WithSem(s, k, sem.(blocked := sem.blocked[1..]));
      assert Drain(s, k) == Drain(s1, k);
      PostWakesFirstLive(s1, k);
      forall w: nat | FirstLive(s, k, w) ensures Drain(s, k) == Wake(s, k, w) {
        SkipFront(s, s1, k, w);
        assert Wake(s, k, w) == Wake(s1, k, w - 1) by {
          assert s1.sems[k].blocked[w..] == sem.blocked[w + 1..];
          assert s1.sems[k := s1.sems[k].(blocked := s1.sems[k].blocked[w..])] ==
                 s.sems[k := sem.(blocked := sem.blocked[w + 1..])];
        }
      }
      if forall w: nat :: !FirstLive(s, k, w) {
        forall w: nat ensures !FirstLive(s1, k, w) { SkipBack(s, s1, k, w); }
        assert s1.sems[k := s1.sems[k].(blocked := [], value := sem.value + 1)] ==
               s.sems[k := sem.(blocked := [], value := sem.value + 1)];
      }
    }
  }

  lemma SkipFront(s: State, s1: State, k: nat, w: nat)
    requires k < |s.sems| && s.sems[k].blocked != [] && !CanRun(s, s.sems[k].blocked[0])
    requires s1 == WithSem(s, k, s.sems[k].(blocked := s.sems[k].blocked[1..])) && FirstLive(s, k, w)
    ensures w > 0 && FirstLive(s1, k, w - 1)
  {
    forall v | 0 <= v < w - 1 ensures !CanRun(s1, s1.sems[k].blocked[v]) {
      assert !CanRun(s, s.sems[k].blocked[v + 1]);
    }
  }

  lemma SkipBack(s: State, s1: State, k: nat, w: nat)
    requires k < |s.sems| && s.sems[k].blocked != [] && !CanRun(s, s.sems[k].blocked[0])
    requires s1 == WithSem(s, k, s.sems[k].(blocked := s.sems[k].blocked[1..])) && !FirstLive(s, k, w + 1)
    ensures !FirstLive(s1, k, w)
  {
    if FirstLive(s1, k, w) {
      forall v | 0 <= v < w + 1 ensures !CanRun(s, s.sems[k].blocked[v]) {
        if v > 0 { assert !CanRun(s1, s1.sems[k].blocked[v - 1]); }
      }
      assert false;
    }
  }

  lemma FirstLiveUnique(s: State, k: nat, v: nat, w: nat)
    requires k < |s.sems| && FirstLive(s, k, v) && FirstLive(s, k, w)
    ensures v == w
  {}
}

/** A semaphore as its clients see it while none of them dies: semWait and semPost of
    Kernel/semaphores/sem.c, which hand a post straight to the first waiter. */
module Handoff {
  import opened Wrappers
  import KernelModel
  import KernelInvariant

  datatype Sem = Sem(value: nat, blocked: seq<int>)

  /** semWait by pid: the second result says whether it may go on at once. */
  function Wait(sem: Sem, pid: int): (Sem, bool) {
    if sem.value > 0 then (sem.(value := sem.value - 1), true)
    else (sem.(blocked := sem.blocked + [pid]), false)
  }

  /** semPost: the second result is the process that may now go on, if one was waiting. */
  function Post(sem: Sem): (Sem, Option<int>) {
    if sem.blocked == [] then (sem.(value := sem.value + 1), None)
    else (sem.(blocked := sem.blocked[1..]), Some(sem.blocked[0]))
  }

  /** Waiters only while there is no value, and nobody waits twice. */
  predicate Fair(sem: Sem) {
    && (sem.value > 0 ==> sem.blocked == [])
    && forall i, j :: 0 <= i < j < |sem.blocked| ==> sem.blocked[i] != sem.blocked[j]
  }

  lemma WaitFair(sem: Sem, p: int)
    requires Fair(sem) && p !in sem.blocked
    ensures Fair(Wait(sem, p).0)
  {}

  /** A post takes the first waiter, and only that one, out of the queue. */
  lemma PostFair(sem: Sem)
    requires Fair(sem)
    ensures Fair(Post(sem).0)
    ensures forall q :: q in Post(sem).0.blocked <==> q in sem.blocked && Post(sem).1 != Some(q)
  {
    if sem.blocked != [] {
      var r := sem.blocked[1..];
      assert sem.blocked == [sem.blocked[0]] + r;
      assert forall i :: 0 <= i < |r| ==> r[i] == sem.blocked[i + 1];
    }
  }

  lemma WakesWaiter(sem: Sem)
    ensures Post(sem).1.Some? ==> Post(sem).1.value in sem.blocked
  {}

  function View(sem: KernelModel.Sem): Sem
    requires sem.value >= 0
  {
    Sem(sem.value, sem.blocked)
  }

  /** With all waiters alive, the kernel's semPost does to its semaphore what Post does, and
      the process it makes READY is the one that Post names. */
  lemma KernelPostIsPost(s: KernelModel.State, k: nat)
    requires k < |s.sems| && s.sems[k].value >= 0
    requires forall i :: 0 <= i < |s.sems[k].blocked| ==> KernelInvariant.CanRun(s, s.sems[k].blocked[i])
    ensures var s' := KernelModel.Drain(s, k);
      var r := Post(View(s.sems[k]));
      && |s'.sems| == |s.sems| && s'.sems[k].value >= 0 && View(s'.sems[k]) == r.0
      && (forall l :: 0 <= l < |s.sems| && l != k ==> s'.sems[l] == s.sems[l])
      && (r.1 == None ==> s'.procs == s.procs)
      && (r.1.Some? ==>
          var i := KernelModel.FindPid(s.procs, r.1.value);
          && i < |s.procs|
          && s'.procs == s.procs[i := s.procs[i].(state := KernelModel.READY, waitsOn := KernelModel.NO_SEM)])
  {
    KernelInvariant.PostWakesFirstLive(s, k);
    if s.sems[k].blocked != [] {
      assert KernelInvariant.FirstLive(s, k, 0);
    }
  }

  /** The kernel's semWait by the running process does to its semaphore what Wait does, and
      stops the process exactly if Wait does not let it go on. */
  lemma KernelWaitIsWait(s: KernelModel.State, k: nat)
    requires KernelInvariant.Inv(s) && s.mode.Running? && s.procs != [] && s.procs[0].state == KernelModel.READY
             && k < |s.sems|
    ensures var (s', stops) := KernelModel.WaitEntry(s, s.sems[k].id);
      var (sem, now) := Wait(View(s.sems[k]), s.procs[0].pid);
      && s.sems[k].value >= 0 && stops == !now
      && |s'.sems| == |s.sems| && s'.sems[k].value >= 0 && View(s'.sems[k]) == sem
      && (forall l :: 0 <= l < |s.sems| && l != k ==> s'.sems[l] == s.sems[l])
      && s'.procs == if now then s.procs
         else s.procs[0 := s.procs[0].(state := KernelModel.BLOCKED, waitsOn := s.sems[k].id)]
  {
    KernelInvariant.FindSemUnique(s, k);
    KernelInvariant.FindPidUnique(s.procs, 0);
  }
}

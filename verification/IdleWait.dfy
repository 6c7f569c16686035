/** semWait while the idle process is current: writeStdin of Kernel/drivers/keyboard.c runs it
    in the interrupt, whoever has been interrupted. */
module IdleWait {
  import opened Wrappers
  import opened KernelModel
  import opened KernelInvariant
  import opened KernelSteps
  import opened KernelRuns

  /** What it does up to its call of the scheduler: without a unit the idle process enters the
      queue and is BLOCKED, and counted out of the ready processes though never counted in. */
  function WaitByIdle(s: State, id: int): State {
    if NoUnit(s, id) then
      var k := FindSem(s.sems, id);
      WithSem(s, k, s.sems[k].(blocked := s.sems[k].blocked + [s.idle.pid])).(
        idle := s.idle.(state := BLOCKED, waitsOn := id), readyCount := s.readyCount - 1)
    else WaitEntry(s, id).0
  }

  /** The idle process may wait if and only if it need not. */
  lemma SafeIffUnit(s: State, id: int)
    requires Inv(s) && s.mode.Idling?
    ensures Inv(WaitByIdle(s, id)) <==> !NoUnit(s, id)
    ensures Legal(s, SemWait(id)) <==> !NoUnit(s, id)
    ensures NoUnit(s, id) ==>
              var t, k := WaitByIdle(s, id), FindSem(s.sems, id);
              && t.idle.state == BLOCKED && t.procs == s.procs && t.readyCount == NumReady(t.procs) - 1
              && t.sems[k].blocked == s.sems[k].blocked + [s.idle.pid]
  {
    TablesParts(s);
    hide Inv;
    if !NoUnit(s, id) {
      UnitKeepsInv(s, id);
    } else if Inv(WaitByIdle(s, id)) {
      TablesParts(WaitByIdle(s, id));
    }
  }

  // ---------------------------------------------------------------- a run that gets there

  /** init runs, and n characters have been typed that nobody has read. */
  function Typed(n: nat, procs: seq<Pcb>, mode: Mode, readyCount: int): State {
    State(procs, mode, 1, readyCount, 3,
          [Sem(0, 1, [], 1, ""), Sem(1, n, [], 1, ""), Sem(2, 1024 - n, [], 1, ""),
           Sem(3, 0, [], 1, ""), Sem(4, 0, [], 1, "")],
          5, Pcb(1, READY, 1, 3, NO_SEM), 2, -1)
  }

  function InitPcb(state: ProcessState): Pcb { Pcb(2, state, 1, 4, NO_SEM) }

  lemma Boots(s: State)
    requires Inv(s) && s == AfterInitScheduler(BootSems())
    ensures Legal(s, Tick) && Step(s, Tick) == Typed(0, [InitPcb(READY)], Running, 1)
  {
    hide Inv;
    assert s.sems == Typed(0, [InitPcb(READY)], Running, 1).sems;
  }

  /** A character is typed: a slot taken, and the byte counted. */
  lemma Types(s: State, n: nat) returns (m: State)
    requires Inv(s) && n < 1024 && s == Typed(n, [InitPcb(READY)], Running, 1)
    ensures Legal(s, SemWait(2)) && m == Step(s, SemWait(2))
    ensures Legal(m, SemPost(1)) && Step(m, SemPost(1)) == Typed(n + 1, [InitPcb(READY)], Running, 1)
  {
    hide Inv;
    FindsById(s.sems);
    m := Step(s, SemWait(2));
    assert m == s.(sems := s.sems[2 := Sem(2, 1024 - n - 1, [], 1, "")]);
    FindsById(m.sems);
    assert Post(m, 1).sems == Typed(n + 1, [InitPcb(READY)], Running, 1).sems;
  }

  lemma FindsById(sems: seq<Sem>)
    requires |sems| > 2 && forall k :: 0 <= k < |sems| ==> sems[k].id == k
    ensures FindSem(sems, 1) == 1 && FindSem(sems, 2) == 2
  {
    assert sems[1].id == 1 && sems[2].id == 2;
  }

  lemma Blocks(s: State)
    requires Inv(s) && s == Typed(1024, [InitPcb(READY)], Running, 1)
    ensures Legal(s, BlockTask(2)) && Step(s, BlockTask(2)) == Typed(1024, [InitPcb(BLOCKED)], Idling, 0)
  {
    hide Inv;
    var t := Typed(1024, [InitPcb(BLOCKED)], Running, 0);
    assert FindPid(s.procs, 2) == 0;
    assert ChangeState(s, 2, BLOCKED).0.procs == t.procs;
    assert NumReady(t.procs) == 0;
    assert Rotate(t.procs) == t.procs;
  }

  lemma {:induction false} TypesAll(n: nat) returns (states: seq<State>, ops: seq<Op>)
    requires n <= 1024
    ensures IsRun(states, ops) && states[0] == AfterInitScheduler(BootSems())
    ensures states[|ops|] == Typed(n, [InitPcb(READY)], Running, 1)
  {
    hide Step, Legal, Inv;
    if n == 0 {
      var s := AfterInitScheduler(BootSems());
      AfterInitSchedulerInv(BootSems());
      Boots(s);
      states, ops := [s, Step(s, Tick)], [Tick];
    } else {
      states, ops := TypesAll(n - 1);
      RunKeepsInv(states, ops, |ops|);
      var m := Types(states[|ops|], n - 1);
      states, ops := ExtendRun(states, ops, SemWait(2));
      states, ops := ExtendRun(states, ops, SemPost(1));
    }
  }

  /** Once 1024 characters have been typed and init has been blocked, the next character makes
      the idle process wait. */
  lemma FullPipeBlocksIdle() returns (states: seq<State>, ops: seq<Op>)
    ensures IsRun(states, ops) && states[0] == AfterInitScheduler(BootSems())
    ensures var s := states[|ops|];
      s.mode.Idling? && NoUnit(s, 2) && !Inv(WaitByIdle(s, 2))
  {
    hide Step, Legal, Inv;
    states, ops := TypesAll(1024);
    RunKeepsInv(states, ops, |ops|);
    Blocks(states[|ops|]);
    states, ops := ExtendRun(states, ops, BlockTask(2));
    FindsById(states[|ops|].sems);
    SafeIffUnit(states[|ops|], 2);
  }
}

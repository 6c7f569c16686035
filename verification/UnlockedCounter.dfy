/** The shared counter of Userland/SampleCodeModule/tests/test_sync.c without its semaphore
    (use_sem = 0): when the test is exact, and the run that shows when it is not. */
module UnlockedCounter {
  import opened Wrappers
  import opened LockedCounter

  /** The counter is d more than the completed increments, as 64 bits show it. */
  predicate Off(s: State, d: int) { s.global == Signed(Unsigned(Sum(s.procs) + d)) }

  /** Outside slowInc, with rounds left to do or none. */
  predicate Idle(p: Proc) { (p.pc.Start? || p.pc.Loop?) && 0 <= p.i <= p.n }

  // ---------------------------------------------------------------- pieces of runs

  lemma {:induction false} FollowAppend(s: State, a: seq<nat>, b: seq<nat>)
    requires Follow(s, a).Some?
    ensures Follow(s, a + b) == Follow(Follow(s, a).value, b)
    decreases |a|
  {
    hide Do, Enabled;
    if a == [] {
      assert a + b == b;
    } else {
      assert (a + b)[1..] == a[1..] + b;
      FollowAppend(Do(s, a[0]), a[1..], b);
    }
  }

  lemma FollowOne(s: State, k: nat)
    requires Enabled(s, k)
    ensures Follow(s, [k]) == Some(Do(s, k))
  {
    hide Do, Enabled;
    assert Follow(Do(s, k), [k][1..]) == Some(Do(s, k));
  }

  /** One more move of process k at the end of a run. */
  lemma Then(s: State, steps: seq<nat>, k: nat) returns (t: State)
    requires Follow(s, steps).Some? && Enabled(Follow(s, steps).value, k)
    ensures t == Do(Follow(s, steps).value, k) && Follow(s, steps + [k]) == Some(t)
  {
    hide Do, Enabled, Follow;
    t := Do(Follow(s, steps).value, k);
    FollowAppend(s, steps, [k]);
    FollowOne(Follow(s, steps).value, k);
  }

  /** From the loop test, or from the start, to having loaded the counter. */
  lemma RunsToLoad(s: State, k: nat) returns (steps: seq<nat>)
    requires !s.useSem && k < |s.procs| && Idle(s.procs[k]) && s.procs[k].i < s.procs[k].n
    ensures Follow(s, steps) == Some(s.(procs := s.procs[k := s.procs[k].(pc := Loaded(Unsigned(s.global)))]))
  {
    hide Follow;
    FollowNone(s);
    steps := [];
    var t := s;
    if s.procs[k].pc.Start? {
      t := Then(s, steps, k);
      steps := steps + [k];
    }
    t := Then(s, steps, k);
    steps := steps + [k];
    t := Then(s, steps, k);
    steps := steps + [k];
    assert t.procs == s.procs[k := s.procs[k].(pc := Loaded(Unsigned(s.global)))];
  }

  lemma FollowNone(s: State)
    ensures Follow(s, []) == Some(s)
  {}

  /** From there to the loop test of the next round. */
  lemma RunsFromLoad(s: State, k: nat) returns (steps: seq<nat>)
    requires !s.useSem && k < |s.procs| && s.procs[k].pc.Loaded?
    ensures var p := s.procs[k];
      Follow(s, steps) == Some(s.(global := Signed(Unsigned(p.pc.aux + p.inc)),
          procs := s.procs[k := p.(pc := Loop, i := p.i + 1)]))
  {
    hide Follow;
    FollowNone(s);
    var t := Then(s, [], k);
    t := Then(s, [] + [k], k);
    steps := [] + [k] + [k];
    assert t.procs == s.procs[k := s.procs[k].(pc := Loop, i := s.procs[k].i + 1)];
  }

  /** A whole round that nobody interrupts keeps the counter as far off as it was. */
  lemma Round(s: State, k: nat, d: int) returns (steps: seq<nat>, t: State)
    requires !s.useSem && k < |s.procs| && Idle(s.procs[k]) && s.procs[k].i < s.procs[k].n && Off(s, d)
    ensures Follow(s, steps) == Some(t) && !t.useSem && Off(t, d)
    ensures t.procs == s.procs[k := s.procs[k].(pc := Loop, i := s.procs[k].i + 1)]
  {
    hide Follow, Sum, Unsigned, Signed;
    var p := s.procs[k];
    var first := RunsToLoad(s, k);
    var a := s.(procs := s.procs[k := p.(pc := Loaded(Unsigned(s.global)))]);
    var second := RunsFromLoad(a, k);
    steps := first + second;
    FollowAppend(s, first, second);
    t := Follow(a, second).value;
    assert t.procs == s.procs[k := p.(pc := Loop, i := p.i + 1)];
    UnsignedAdd(Sum(s.procs) + d, p.inc);
    SumUpdate(s.procs, k, t.procs[k]);
    assert (p.i + 1) * p.inc == p.i * p.inc + p.inc;
  }

  /** Process k runs to its end alone. */
  lemma {:induction false} Finishes(s: State, k: nat, d: int) returns (steps: seq<nat>, t: State)
    requires !s.useSem && k < |s.procs| && Idle(s.procs[k]) && Off(s, d)
    ensures Follow(s, steps) == Some(t) && !t.useSem && Off(t, d)
    ensures t.procs == s.procs[k := s.procs[k].(pc := Done, i := s.procs[k].n)]
    decreases s.procs[k].n - s.procs[k].i
  {
    hide Follow, Sum, Unsigned, Signed;
    var p := s.procs[k];
    if p.i < p.n {
      var first, a := Round(s, k, d);
      var second, b := Finishes(a, k, d);
      steps, t := first + second, b;
      FollowAppend(s, first, second);
    } else {
      steps, t := Leaves(s, k, d);
    }
  }

  /** A process with no rounds left has one or two moves to its end. */
  lemma Leaves(s: State, k: nat, d: int) returns (steps: seq<nat>, t: State)
    requires !s.useSem && k < |s.procs| && Idle(s.procs[k]) && s.procs[k].i == s.procs[k].n && Off(s, d)
    ensures Follow(s, steps) == Some(t) && !t.useSem && Off(t, d)
    ensures t.procs == s.procs[k := s.procs[k].(pc := Done)]
  {
    hide Follow, Sum, Unsigned, Signed;
    FollowNone(s);
    steps := [];
    if s.procs[k].pc.Start? {
      t := Then(s, steps, k);
      steps := steps + [k];
    }
    t := Then(s, steps, k);
    steps := steps + [k];
    SumUpdate(s.procs, k, s.procs[k].(pc := Done));
    assert t.procs == s.procs[k := s.procs[k].(pc := Done)];
  }

  /** The processes from m on run to their ends, one after the other. */
  lemma {:induction false} AllFinish(s: State, m: nat, d: int) returns (steps: seq<nat>, t: State)
    requires !s.useSem && m <= |s.procs| && Off(s, d)
    requires forall j :: 0 <= j < m ==> s.procs[j].pc.Done? && s.procs[j].i == s.procs[j].n
    requires forall j :: m <= j < |s.procs| ==> Idle(s.procs[j])
    ensures Follow(s, steps) == Some(t) && Off(t, d) && SameRequests(s.procs, t.procs)
    ensures forall j :: 0 <= j < |t.procs| ==> t.procs[j].pc.Done? && t.procs[j].i == t.procs[j].n
    decreases |s.procs| - m
  {
    hide Follow, Off;
    if m == |s.procs| {
      FollowNone(s);
      steps, t := [], s;
    } else {
      var first, a := Finishes(s, m, d);
      var second, b := AllFinish(a, m + 1, d);
      steps, t := first + second, b;
      FollowAppend(s, first, second);
    }
  }

  // ---------------------------------------------------------------- the lost round

  /** Process 0 loads the counter, process 1 does a whole round, and process 0 stores over it. */
  lemma LosesRound(s: State) returns (steps: seq<nat>, t: State)
    requires !s.useSem && |s.procs| >= 2 && Off(s, 0)
    requires forall j :: 0 <= j < |s.procs| ==> Idle(s.procs[j]) && s.procs[j].i < s.procs[j].n
    ensures Follow(s, steps) == Some(t) && !t.useSem && Off(t, -s.procs[1].inc) && SameRequests(s.procs, t.procs)
    ensures forall j :: 0 <= j < |t.procs| ==> Idle(t.procs[j])
  {
    hide Follow, Sum, Unsigned, Signed;
    var p, q := s.procs[0], s.procs[1];
    var first := RunsToLoad(s, 0);
    var a := Follow(s, first).value;
    var second, b := RoundBeside(a, 1);
    FollowAppend(s, first, second);
    var third := RunsFromLoad(b, 0);
    FollowAppend(s, first + second, third);
    steps, t := first + second + third, Follow(b, third).value;
    assert t.procs == s.procs[0 := p.(pc := Loop, i := p.i + 1)][1 := q.(pc := Loop, i := q.i + 1)];
    UnsignedAdd(Sum(s.procs), p.inc);
    SumUpdate(s.procs, 0, t.procs[0]);
    SumUpdate(s.procs[0 := t.procs[0]], 1, t.procs[1]);
    assert (p.i + 1) * p.inc == p.i * p.inc + p.inc && (q.i + 1) * q.inc == q.i * q.inc + q.inc;
  }

  lemma RoundBeside(s: State, k: nat) returns (steps: seq<nat>, t: State)
    requires !s.useSem && k < |s.procs| && Idle(s.procs[k]) && s.procs[k].i < s.procs[k].n
    ensures Follow(s, steps) == Some(t) && !t.useSem
    ensures t.procs == s.procs[k := s.procs[k].(pc := Loop, i := s.procs[k].i + 1)]
  {
    hide Follow;
    var first := RunsToLoad(s, k);
    var a := Follow(s, first).value;
    var second := RunsFromLoad(a, k);
    steps, t := first + second, Follow(a, second).value;
    FollowAppend(s, first, second);
    assert t.procs == s.procs[k := s.procs[k].(pc := Loop, i := s.procs[k].i + 1)];
  }

  // ---------------------------------------------------------------- exactness

  /** Every complete run ends at the sum that the processes were asked to add. */
  ghost predicate AlwaysExact(s: State) {
    forall steps: seq<nat> :: Follow(s, steps).Some? && AllDone(Follow(s, steps).value) ==>
      Follow(s, steps).value.global == Signed(Unsigned(Asked(s.procs)))
  }

  lemma DifferentSums(x: int, d: int)
    requires d % TWO_64 != 0
    ensures Signed(Unsigned(x - d)) != Signed(Unsigned(x))
  {
    if Unsigned(x - d) == Unsigned(x) {
      var q := (x - d) / TWO_64;
      var r := x / TWO_64;
      assert x - d == q * TWO_64 + Unsigned(x) && x == r * TWO_64 + Unsigned(x);
      assert d == (r - q) * TWO_64;
      Multiple(0, r - q);
    }
  }

  lemma LosesWithoutSemaphore(s: State) returns (steps: seq<nat>)
    requires Initial(s) && !s.useSem && |s.procs| >= 2 && s.procs[1].inc % TWO_64 != 0
    ensures Follow(s, steps).Some? && AllDone(Follow(s, steps).value)
    ensures Follow(s, steps).value.global ==
            Signed(Unsigned(Asked(s.procs) - s.procs[1].inc)) != Signed(Unsigned(Asked(s.procs)))
  {
    hide Follow, Asked;
    InitialSums(s.procs);
    assert Off(s, 0);
    var first, a := LosesRound(s);
    var second, t := AllFinish(a, 0, -s.procs[1].inc);
    steps := first + second;
    FollowAppend(s, first, second);
    DoneSums(t.procs);
    SameAsked(s.procs, t.procs);
    DifferentSums(Asked(s.procs), s.procs[1].inc);
  }

  /** The test is exact in every run if and only if it uses the semaphore or has one process
      at most, whatever the processes add and how often. */
  lemma ExactIffLocked(s: State)
    requires Initial(s) && |s.procs| <= ATTACHED_RANGE
    requires forall k :: 0 <= k < |s.procs| ==> s.procs[k].inc % TWO_64 != 0
    ensures AlwaysExact(s) <==> s.useSem || |s.procs| <= 1
  {
    hide Follow, Asked, Signed, Unsigned;
    if s.useSem || |s.procs| <= 1 {
      forall steps: seq<nat> | Follow(s, steps).Some? && AllDone(Follow(s, steps).value)
        ensures Follow(s, steps).value.global == Signed(Unsigned(Asked(s.procs)))
      {
        FinalValue(s, steps);
      }
    } else {
      var steps := LosesWithoutSemaphore(s);
    }
  }

  /** Even one increment and one decrement need not end at 0. */
  lemma WithoutSemaphoreLosesUpdates()
    ensures exists s, steps ::
      && Initial(s) && !s.useSem && Net(s.procs) == 0 && EachRounds(s.procs, 1)
      && Follow(s, steps).Some? && AllDone(Follow(s, steps).value) && Follow(s, steps).value.global != 0
  {
    var inc, dec := Proc(1, 1, 0, Start, 0), Proc(1, -1, 0, Start, 0);
    var s := State(false, None, 0, 0, [inc, dec]);
    var steps := LosesWithoutSemaphore(s);
    assert s.procs[1..] == [dec] && [dec][1..] == [];
    assert Net(s.procs) == 1 + Net([dec]) && Net([dec]) == -1 + Net([]);
    SameRounds(s.procs, 1);
  }
}

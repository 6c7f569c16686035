/** Processes that add to one shared counter (Userland/SampleCodeModule/tests/test_sync.c):
    each opens the named semaphore, does n locked read-modify-write rounds and closes it.
    Any number of processes run, interleaved at every point where another may take over. */
module LockedCounter {
  import opened Wrappers
  import opened Handoff

  const TWO_63: int := 0x8000_0000_0000_0000
  const TWO_64: int := 0x1_0000_0000_0000_0000
  /** attachedProcesses is 16 bits wide. */
  const ATTACHED_RANGE: nat := 65536

  function Unsigned(x: int): (u: nat)
    ensures u < TWO_64
  {
    x % TWO_64
  }

  /** u as a two's complement number. */
  function Signed(u: nat): int { if u < TWO_63 then u else u - TWO_64 }

  lemma FitsInWord(x: int)
    requires -TWO_63 <= x < TWO_63
    ensures Signed(Unsigned(x)) == x
  {}

  /** Start: before semOpen. Loop: at the loop test. Inside, Loaded, Stored: past semWait, with
      the counter not yet read, read into aux, and written back. */
  datatype Pc = Start | Loop | Blocked | Inside | Loaded(aux: nat) | Stored | Done

  datatype Proc = Proc(n: int, inc: int, i: int, pc: Pc, sharedSem: int)

  /** The semaphore that has the shared name, while there is one. */
  datatype Shared = Shared(id: int, sem: Sem, attached: nat)

  datatype State = State(useSem: bool, shared: Option<Shared>, nextId: int, global: int, procs: seq<Proc>)

  // ---------------------------------------------------------------- steps

  /** findSem: a semaphore that is gone is not found, and the call then does nothing. */
  predicate Finds(s: State, p: Proc) {
    s.useSem && s.shared.Some? && s.shared.value.id == p.sharedSem
  }

  function Open(s: State, k: nat): State
    requires k < |s.procs|
  {
    var p := s.procs[k];
    if !s.useSem then s.(procs := s.procs[k := p.(pc := Loop)])
    else
      var found := if s.shared.Some? then s.shared.value else Shared(s.nextId, Sem(1, []), 0);
      s.(shared := Some(found.(attached := (found.attached + 1) % ATTACHED_RANGE)),
         nextId := if s.shared.Some? then s.nextId else s.nextId + 1,
         procs := s.procs[k := p.(pc := Loop, sharedSem := found.id)])
  }

  function Enter(s: State, k: nat): State
    requires k < |s.procs|
  {
    var p := s.procs[k];
    if !Finds(s, p) then s.(procs := s.procs[k := p.(pc := Inside)])
    else
      var (sem, now) := Wait(s.shared.value.sem, k);
      s.(shared := Some(s.shared.value.(sem := sem)), procs := s.procs[k := p.(pc := if now then Inside else Blocked)])
  }

  function Woken(procs: seq<Proc>, woken: Option<int>): seq<Proc> {
    if woken.Some? && 0 <= woken.value < |procs| then procs[woken.value := procs[woken.value].(pc := Inside)]
    else procs
  }

  function Leave(s: State, k: nat): State
    requires k < |s.procs|
  {
    var p := s.procs[k];
    var procs := s.procs[k := p.(pc := Loop, i := p.i + 1)];
    if !Finds(s, p) then s.(procs := procs)
    else
      var (sem, woken) := Post(s.shared.value.sem);
      s.(shared := Some(s.shared.value.(sem := sem)), procs := Woken(procs, woken))
  }

  function Close(s: State, k: nat): State
    requires k < |s.procs|
  {
    var p := s.procs[k];
    var t := s.(procs := s.procs[k := p.(pc := Done)]);
    if !Finds(s, p) then t
    else if s.shared.value.attached == 1 then t.(shared := None)
    else t.(shared := Some(s.shared.value.(attached := (s.shared.value.attached - 1) % ATTACHED_RANGE)))
  }

  predicate Enabled(s: State, k: nat) {
    k < |s.procs| && !s.procs[k].pc.Blocked? && !s.procs[k].pc.Done?
  }

  /** What process k does next. */
  function Do(s: State, k: nat): State
    requires Enabled(s, k)
  {
    var p := s.procs[k];
    match p.pc
    case Start => Open(s, k)
    case Loop => if p.i < p.n then Enter(s, k) else Close(s, k)
    case Inside => s.(procs := s.procs[k := p.(pc := Loaded(Unsigned(s.global)))])
    case Loaded(aux) => s.(global := Signed(Unsigned(aux + p.inc)), procs := s.procs[k := p.(pc := Stored)])
    case Stored => Leave(s, k)
  }

  // ---------------------------------------------------------------- invariant

  predicate Critical(pc: Pc) { pc.Inside? || pc.Loaded? || pc.Stored? }

  predicate Using(pc: Pc) { !pc.Start? && !pc.Done? }

  function Users(procs: seq<Proc>): set<nat> { set k: nat | k < |procs| && Using(procs[k].pc) }

  /** Every process that has the semaphore open means the one that exists now. */
  ghost predicate Attached(s: State) {
    && s.useSem && |s.procs| <= ATTACHED_RANGE
    && (s.shared == None <==> Users(s.procs) == {})
    && (s.shared.Some? ==> s.shared.value.attached == |Users(s.procs)| % ATTACHED_RANGE)
    && forall k :: k in Users(s.procs) ==> s.shared.Some? && s.procs[k].sharedSem == s.shared.value.id
  }

  /** The value counts the free place in the critical section, and the queue holds exactly
      the blocked processes. */
  ghost predicate Locked(s: State) {
    && (forall j, k :: 0 <= j < k < |s.procs| ==> !(Critical(s.procs[j].pc) && Critical(s.procs[k].pc)))
    && (s.shared.Some? ==>
        && Fair(s.shared.value.sem) && 0 <= s.shared.value.sem.value <= 1
        && (s.shared.value.sem.value == 1 ==> forall k :: 0 <= k < |s.procs| ==> !Critical(s.procs[k].pc))
        && (s.shared.value.sem.value == 0 ==> exists k :: 0 <= k < |s.procs| && Critical(s.procs[k].pc))
        && (forall q :: q in s.shared.value.sem.blocked <==> 0 <= q < |s.procs| && s.procs[q].pc.Blocked?))
  }

  /** Increments of p that have reached the counter. */
  function Completed(p: Proc): int { p.i + if p.pc.Stored? then 1 else 0 }

  function Sum(procs: seq<Proc>): int {
    if procs == [] then 0 else Completed(procs[0]) * procs[0].inc + Sum(procs[1..])
  }

  /** Where p stands in its rounds; the value it has read is the counter's. */
  predicate InRounds(p: Proc, global: int) {
    && p.n > 0 && 0 <= p.i <= p.n
    && (p.pc.Start? ==> p.i == 0)
    && (p.pc.Done? ==> p.i == p.n)
    && (Critical(p.pc) || p.pc.Blocked? ==> p.i < p.n)
    && (p.pc.Loaded? ==> p.pc.aux == Unsigned(global))
  }

  ghost predicate Counted(s: State) {
    && s.global == Signed(Unsigned(Sum(s.procs)))
    && forall k :: 0 <= k < |s.procs| ==> InRounds(s.procs[k], s.global)
  }

  /** One process at most needs no semaphore. */
  predicate Alone(s: State) { !s.useSem && |s.procs| <= 1 && s.shared == None }

  ghost predicate Inv(s: State) { (Attached(s) || Alone(s)) && Locked(s) && Counted(s) }

  // ---------------------------------------------------------------- every step keeps it

  lemma UsersWith(procs: seq<Proc>, k: nat, p: Proc)
    requires k < |procs| && procs[k].pc.Start? && Using(p.pc)
    ensures Users(procs[k := p]) == Users(procs) + {k} && k !in Users(procs)
    ensures |Users(procs[k := p])| == |Users(procs)| + 1 <= |procs|
    ensures forall j :: j in Users(procs) ==> j < |procs|
  {
    assert Users(procs[k := p]) == Users(procs) + {k};
    SubsetBound(Users(procs[k := p]), |procs|);
  }

  lemma AttachedKeptByOpen(s: State, k: nat)
    requires Attached(s) && k < |s.procs| && s.procs[k].pc.Start?
    ensures Attached(Open(s, k))
  {
    hide Users;
    UsersWith(s.procs, k, Open(s, k).procs[k]);
  }

  lemma AttachedKeptByClose(s: State, k: nat)
    requires Attached(s) && k < |s.procs| && s.procs[k].pc.Loop?
    ensures Attached(Close(s, k))
  {
    var s' := Close(s, k);
    SubsetBound(Users(s.procs), |s.procs|);
    assert k in Users(s.procs);
    assert Users(s'.procs) == Users(s.procs) - {k};
    assert |Users(s'.procs)| == |Users(s.procs)| - 1;
  }

  lemma AttachedKeptInside(s: State, s': State)
    requires Attached(s)
    requires s'.useSem && |s'.procs| == |s.procs|
    requires forall k :: 0 <= k < |s.procs| ==>
               s'.procs[k].sharedSem == s.procs[k].sharedSem && (Using(s'.procs[k].pc) <==> Using(s.procs[k].pc))
    requires s'.shared.Some? <==> s.shared.Some?
    requires s.shared.Some? ==>
               s'.shared.value.id == s.shared.value.id && s'.shared.value.attached == s.shared.value.attached
    ensures Attached(s')
  {
    assert Users(s'.procs) == Users(s.procs);
  }

  lemma AttachedKept(s: State, k: nat)
    requires Attached(s) && Locked(s) && Enabled(s, k)
    ensures Attached(Do(s, k))
  {
    hide Attached;
    var p, s' := s.procs[k], Do(s, k);
    match p.pc
    case Start => AttachedKeptByOpen(s, k);
    case Loop =>
      if p.i < p.n {
        UsesSem(s);
        AttachedKeptInside(s, s');
      } else {
        AttachedKeptByClose(s, k);
      }
    case Inside => UsesSem(s); AttachedKeptInside(s, s');
    case Loaded(_) => UsesSem(s); AttachedKeptInside(s, s');
    case Stored =>
      UsesSem(s);
      if Finds(s, p) { WakesWaiter(s.shared.value.sem); }
      AttachedKeptInside(s, s');
  }

  lemma UsesSem(s: State)
    requires Attached(s)
    ensures s.useSem
    ensures forall k :: 0 <= k < |s.procs| && Using(s.procs[k].pc) ==> Finds(s, s.procs[k])
    ensures s.shared == None ==> forall k :: 0 <= k < |s.procs| ==> !Using(s.procs[k].pc)
  {
    forall k | 0 <= k < |s.procs| && Using(s.procs[k].pc) ensures k in Users(s.procs) {}
  }

  lemma {:induction false} SubsetBound(a: set<nat>, n: nat)
    requires forall x :: x in a ==> x < n
    ensures |a| <= n
  {
    if n > 0 {
      SubsetBound(a - {n - 1}, n - 1);
    } else {
      assert a == {};
    }
  }

  lemma LockedKeptByEnter(s: State, k: nat)
    requires Locked(s) && k < |s.procs| && s.procs[k].pc.Loop? && Finds(s, s.procs[k])
    ensures Locked(Enter(s, k))
  {
    hide Fair;
    var s' := Enter(s, k);
    WaitFair(s.shared.value.sem, k);
    if s.shared.value.sem.value > 0 {
      assert Critical(s'.procs[k].pc);
    } else {
      var h :| 0 <= h < |s.procs| && Critical(s.procs[h].pc);
      assert Critical(s'.procs[h].pc);
    }
  }

  lemma LockedKeptByLeave(s: State, k: nat)
    requires Locked(s) && k < |s.procs| && s.procs[k].pc.Stored? && Finds(s, s.procs[k])
    ensures Locked(Leave(s, k))
  {
    var s', sem := Leave(s, k), s.shared.value.sem;
    PostFair(sem);
    WakesWaiter(sem);
    assert Critical(s.procs[k].pc);
    if sem.blocked != [] {
      assert Critical(s'.procs[sem.blocked[0]].pc);
    }
  }

  /** Steps that leave the semaphore alone and change no other process. */
  lemma LockedKeptBeside(s: State, s': State, k: nat, p: Proc)
    requires Locked(s) && k < |s.procs| && s'.procs == s.procs[k := p] && !p.pc.Blocked? && !s.procs[k].pc.Blocked?
    requires Critical(p.pc) <==> Critical(s.procs[k].pc)
    requires s'.shared.Some? ==> s.shared.Some? && s'.shared.value.sem == s.shared.value.sem
    ensures Locked(s')
  {
    if s'.shared.Some? && s.shared.value.sem.value == 0 {
      var h :| 0 <= h < |s.procs| && Critical(s.procs[h].pc);
      assert Critical(s'.procs[h].pc);
    }
  }

  lemma LockedKept(s: State, k: nat)
    requires Attached(s) && Locked(s) && Enabled(s, k)
    ensures Locked(Do(s, k))
  {
    hide Attached;
    UsesSem(s);
    var p, s' := s.procs[k], Do(s, k);
    match p.pc
    case Start =>
      if s.shared.Some? {
        LockedKeptBeside(s, s', k, s'.procs[k]);
      }
    case Loop =>
      if p.i < p.n {
        LockedKeptByEnter(s, k);
      } else {
        LockedKeptBeside(s, s', k, s'.procs[k]);
      }
    case Inside => LockedKeptBeside(s, s', k, s'.procs[k]);
    case Loaded(_) => LockedKeptBeside(s, s', k, s'.procs[k]);
    case Stored => LockedKeptByLeave(s, k);
  }

  lemma {:induction false} SumUpdate(procs: seq<Proc>, k: nat, p: Proc)
    requires k < |procs|
    ensures Sum(procs[k := p]) == Sum(procs) - Completed(procs[k]) * procs[k].inc + Completed(p) * p.inc
  {
    if k == 0 {
      assert procs[k := p][1..] == procs[1..];
    } else {
      assert procs[k := p][1..] == procs[1..][k - 1 := p];
      SumUpdate(procs[1..], k - 1, p);
    }
  }

  lemma UnsignedAdd(x: int, y: int)
    ensures Unsigned(Unsigned(Signed(Unsigned(x))) + y) == Unsigned(x + y)
  {
    var q := x / TWO_64;
    assert x == q * TWO_64 + Unsigned(x);
    assert Unsigned(Signed(Unsigned(x))) == Unsigned(x);
    Multiple(Unsigned(x) + y, q);
  }

  lemma Multiple(x: int, q: int)
    ensures Unsigned(x + q * TWO_64) == Unsigned(x)
  {}

  lemma CountedKeptByStore(s: State, k: nat)
    requires Locked(s) && Counted(s) && k < |s.procs| && s.procs[k].pc.Loaded?
    ensures Counted(Do(s, k))
  {
    hide Sum, Unsigned, Signed, Fair;
    var p, s' := s.procs[k], Do(s, k);
    SumUpdate(s.procs, k, s'.procs[k]);
    UnsignedAdd(Sum(s.procs), p.inc);
    assert Completed(s'.procs[k]) * p.inc == Completed(p) * p.inc + p.inc;
    assert Critical(p.pc);
  }

  lemma CountedKeptByLeave(s: State, k: nat)
    requires Locked(s) && Counted(s) && k < |s.procs| && s.procs[k].pc.Stored? && Finds(s, s.procs[k])
    ensures Counted(Do(s, k))
  {
    hide Sum, Unsigned, Signed, Fair;
    var p, sem := s.procs[k], s.shared.value.sem;
    var procs := s.procs[k := p.(pc := Loop, i := p.i + 1)];
    SumUpdate(s.procs, k, p.(pc := Loop, i := p.i + 1));
    WakesWaiter(sem);
    if sem.blocked != [] {
      var q := sem.blocked[0];
      assert procs[q].pc.Blocked?;
      SumUpdate(procs, q, procs[q].(pc := Inside));
    }
  }

  /** Steps of process k that leave the counter and the rounds done alone. */
  lemma CountedKeptBeside(s: State, s': State, k: nat, p: Proc)
    requires Counted(s) && k < |s.procs| && s'.procs == s.procs[k := p] && s'.global == s.global
    requires Completed(p) == Completed(s.procs[k]) && p.inc == s.procs[k].inc && InRounds(p, s.global)
    ensures Counted(s')
  {
    SumUpdate(s.procs, k, p);
  }

  lemma CountedKept(s: State, k: nat)
    requires Attached(s) && Locked(s) && Counted(s) && Enabled(s, k)
    ensures Counted(Do(s, k))
  {
    hide Attached, Locked, Sum, Unsigned, Signed;
    UsesSem(s);
    var p, s' := s.procs[k], Do(s, k);
    assert InRounds(p, s.global);
    match p.pc
    case Start => CountedKeptBeside(s, s', k, s'.procs[k]);
    case Loop => CountedKeptBeside(s, s', k, s'.procs[k]);
    case Inside => CountedKeptBeside(s, s', k, s'.procs[k]);
    case Loaded(aux) => CountedKeptByStore(s, k);
    case Stored => CountedKeptByLeave(s, k);
  }

  lemma AloneKept(s: State, k: nat)
    requires Alone(s) && Locked(s) && Counted(s) && Enabled(s, k)
    ensures Alone(Do(s, k)) && Locked(Do(s, k)) && Counted(Do(s, k))
  {
    hide Sum, Unsigned, Signed;
    if s.procs[k].pc.Loaded? {
      CountedKeptByStore(s, k);
    } else {
      SumUpdate(s.procs, k, Do(s, k).procs[k]);
    }
  }

  lemma StepKeepsInv(s: State, k: nat)
    requires Inv(s) && Enabled(s, k)
    ensures Inv(Do(s, k))
  {
    hide Attached, Locked, Counted, Do, Enabled, Alone;
    if Alone(s) {
      AloneKept(s, k);
    } else {
      AttachedKept(s, k);
      LockedKept(s, k);
      CountedKept(s, k);
    }
  }

  // ---------------------------------------------------------------- runs

  /** No process has begun, no semaphore has the name, and test_sync has cleared the counter. */
  ghost predicate Initial(s: State) {
    && s.shared == None && s.global == 0
    && forall k :: 0 <= k < |s.procs| ==> s.procs[k].pc == Start && s.procs[k].i == 0 && s.procs[k].n > 0
  }

  /** The processes named by steps move one after the other; None if one of them cannot. */
  function Follow(s: State, steps: seq<nat>): Option<State>
    decreases |steps|
  {
    if steps == [] then Some(s)
    else if Enabled(s, steps[0]) then Follow(Do(s, steps[0]), steps[1..]) else None
  }

  lemma {:induction false} InitialSums(procs: seq<Proc>)
    requires forall k :: 0 <= k < |procs| ==> procs[k].pc == Start && procs[k].i == 0
    ensures Sum(procs) == 0 && Users(procs) == {}
  {
    if procs == [] {
    } else {
      assert forall k :: 0 <= k < |procs| - 1 ==> procs[1..][k] == procs[k + 1];
      InitialSums(procs[1..]);
      assert Sum(procs) == Completed(procs[0]) * procs[0].inc + Sum(procs[1..]);
    }
  }

  lemma InitialInv(s: State)
    requires Initial(s) && |s.procs| <= ATTACHED_RANGE && (s.useSem || |s.procs| <= 1)
    ensures Inv(s)
  {
    InitialSums(s.procs);
  }

  lemma {:induction false} FollowKeepsInv(s: State, steps: seq<nat>)
    requires Inv(s)
    ensures Follow(s, steps).Some? ==> Inv(Follow(s, steps).value)
    decreases |steps|
  {
    hide Inv, Do, Enabled;
    if steps == [] {
    } else if Enabled(s, steps[0]) {
      StepKeepsInv(s, steps[0]);
      FollowKeepsInv(Do(s, steps[0]), steps[1..]);
    }
  }

  /** At every point of every run at most one process is between semWait and semPost, and
      the counter is the sum of the completed increments, as 64 bits show it. A blocked
      process always has a holder to wait for, and whoever has the semaphore open means the
      one that exists now. */
  lemma LockedIncrements(s0: State, steps: seq<nat>)
    requires Initial(s0) && s0.useSem && |s0.procs| <= ATTACHED_RANGE && Follow(s0, steps).Some?
    ensures var s := Follow(s0, steps).value;
      && (forall j, k :: 0 <= j < k < |s.procs| ==> !(Critical(s.procs[j].pc) && Critical(s.procs[k].pc)))
      && s.global == Signed(Unsigned(Sum(s.procs)))
      && (forall q :: 0 <= q < |s.procs| && s.procs[q].pc.Blocked? ==>
         exists k :: 0 <= k < |s.procs| && Critical(s.procs[k].pc))
      && (forall k :: 0 <= k < |s.procs| && Using(s.procs[k].pc) ==> Finds(s, s.procs[k]))
  {
    InitialInv(s0);
    FollowKeepsInv(s0, steps);
    FollowKeepsRequests(s0, steps);
    var s := Follow(s0, steps).value;
    UsesSem(s);
    forall q | 0 <= q < |s.procs| && s.procs[q].pc.Blocked?
        ensures exists k :: 0 <= k < |s.procs| && Critical(s.procs[k].pc) {
      assert Finds(s, s.procs[q]);
      assert q in s.shared.value.sem.blocked;
    }
  }

  // ---------------------------------------------------------------- the result of a test

  /** What all the processes were asked to add. */
  function Asked(procs: seq<Proc>): int {
    if procs == [] then 0 else procs[0].n * procs[0].inc + Asked(procs[1..])
  }

  ghost predicate AllDone(s: State) { forall k :: 0 <= k < |s.procs| ==> s.procs[k].pc.Done? }

  lemma {:induction false} DoneSums(procs: seq<Proc>)
    requires forall k :: 0 <= k < |procs| ==> procs[k].pc.Done? && procs[k].i == procs[k].n
    ensures Sum(procs) == Asked(procs)
  {
    if procs == [] {
    } else {
      assert forall k :: 0 <= k < |procs| - 1 ==> procs[1..][k] == procs[k + 1];
      DoneSums(procs[1..]);
    }
  }

  /** Net number of increments over decrements among processes of steps 1 and -1. */
  function Net(procs: seq<Proc>): int {
    if procs == [] then 0 else procs[0].inc + Net(procs[1..])
  }

  predicate EachRounds(procs: seq<Proc>, n: int) {
    forall k :: 0 <= k < |procs| ==> procs[k].n == n
  }

  lemma {:induction false} SameRounds(procs: seq<Proc>, n: int)
    requires EachRounds(procs, n)
    ensures Asked(procs) == n * Net(procs)
  {
    if procs == [] {
    } else {
      assert forall k :: 0 <= k < |procs| - 1 ==> procs[1..][k] == procs[k + 1];
      SameRounds(procs[1..], n);
      assert n * Net(procs) == n * procs[0].inc + n * Net(procs[1..]);
    }
  }

  /** Processes stay what they were asked to be. */
  predicate SameRequests(a: seq<Proc>, b: seq<Proc>) {
    |a| == |b| && forall k :: 0 <= k < |a| ==> a[k].n == b[k].n && a[k].inc == b[k].inc
  }

  lemma {:induction false} FollowKeepsRequests(s: State, steps: seq<nat>)
    ensures Follow(s, steps).Some? ==>
            SameRequests(s.procs, Follow(s, steps).value.procs) && Follow(s, steps).value.useSem == s.useSem
    decreases |steps|
  {
    if steps == [] {
    } else if Enabled(s, steps[0]) {
      assert SameRequests(s.procs, Do(s, steps[0]).procs);
      FollowKeepsRequests(Do(s, steps[0]), steps[1..]);
    }
  }

  lemma {:induction false} SameAsked(a: seq<Proc>, b: seq<Proc>)
    requires SameRequests(a, b)
    ensures Asked(a) == Asked(b) && Net(a) == Net(b)
  {
    if a == [] {
    } else {
      SameAsked(a[1..], b[1..]);
    }
  }

  /** When every process has finished nothing was lost, with the semaphore or with one
      process only; so as many increments as decrements, each n times, end at 0. */
  lemma FinalValue(s0: State, steps: seq<nat>)
    requires Initial(s0) && |s0.procs| <= ATTACHED_RANGE && (s0.useSem || |s0.procs| <= 1)
    requires Follow(s0, steps).Some? && AllDone(Follow(s0, steps).value)
    ensures var s := Follow(s0, steps).value;
      && s.global == Signed(Unsigned(Asked(s0.procs)))
      && (-TWO_63 <= Asked(s0.procs) < TWO_63 ==> s.global == Asked(s0.procs))
      && s.shared == None
      && ((exists n :: EachRounds(s0.procs, n)) && Net(s0.procs) == 0 ==> s.global == 0)
  {
    InitialInv(s0);
    FollowKeepsInv(s0, steps);
    FollowKeepsRequests(s0, steps);
    var s := Follow(s0, steps).value;
    DoneSums(s.procs);
    SameAsked(s0.procs, s.procs);
    if -TWO_63 <= Asked(s0.procs) < TWO_63 { FitsInWord(Asked(s0.procs)); }
    assert Users(s.procs) == {};
    if n :| EachRounds(s0.procs, n) {
      SameRounds(s0.procs, n);
    }
  }
}

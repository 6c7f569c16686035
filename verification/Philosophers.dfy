/** The dining philosophers (Userland/SampleCodeModule/lib/phylo.c): a ring of fixed size
    whose states change only under gateMutex, and a private semaphore for each philosopher,
    created with the value firstValue (1 in the source). Each statement is one step. */
module Philosophers {
  import opened Wrappers
  import opened Handoff

  datatype Mood = Deciding | Waiting | Eating

  /** What the philosopher does next, or the queue it stands in. */
  datatype Pc =
    | Outside | QueuedToWait | SetWaiting | TestSelf | LeaveWait
    | AskMeal | QueuedForMeal | Meal
    | QueuedToRest | SetDeciding | TestLeft | TestRight | LeaveRest

  datatype Dinner = Dinner(mood: seq<Mood>, gate: Sem, own: seq<Sem>, pc: seq<Pc>)

  function Left(i: nat, n: nat): (l: nat)
    requires i < n
    ensures l < n
  {
    (i + n - 1) % n
  }

  function Right(i: nat, n: nat): (r: nat)
    requires i < n
    ensures r < n
  {
    (i + 1) % n
  }

  predicate Sized(s: Dinner) {
    |s.own| == |s.mood| && |s.pc| == |s.mood| && |s.mood| >= 2
  }

  // ---------------------------------------------------------------- steps

  predicate CanEat(mood: seq<Mood>, i: nat)
    requires i < |mood|
  {
    mood[i] == Waiting && mood[Left(i, |mood|)] != Eating && mood[Right(i, |mood|)] != Eating
  }

  /** testEat on the states. */
  function Tested(mood: seq<Mood>, i: nat): (r: seq<Mood>)
    requires i < |mood|
    ensures |r| == |mood|
  {
    if CanEat(mood, i) then mood[i := Eating] else mood
  }

  function Freed(pc: seq<Pc>, woken: Option<int>): (r: seq<Pc>)
    ensures |r| == |pc|
  {
    if woken.Some? && 0 <= woken.value < |pc| then
      pc[woken.value := match pc[woken.value]
         case QueuedToWait => SetWaiting
         case QueuedToRest => SetDeciding
         case QueuedForMeal => Meal
         case other => other]
    else pc
  }

  /** testEat: who may eat is given a place at its own semaphore. */
  function TestEat(s: Dinner, i: nat): Dinner
    requires Sized(s) && i < |s.mood|
  {
    if CanEat(s.mood, i) then
      var (sem, woken) := Post(s.own[i]);
      s.(mood := s.mood[i := Eating], own := s.own[i := sem], pc := Freed(s.pc, woken))
    else s
  }

  function EnterGate(s: Dinner, k: nat, inside: Pc, queued: Pc): Dinner
    requires Sized(s) && k < |s.mood|
  {
    var (sem, now) := Wait(s.gate, k);
    s.(gate := sem, pc := s.pc[k := if now then inside else queued])
  }

  function LeaveGate(s: Dinner, k: nat, after: Pc): Dinner
    requires Sized(s) && k < |s.mood|
  {
    var (sem, woken) := Post(s.gate);
    s.(gate := sem, pc := Freed(s.pc[k := after], woken))
  }

  function At(s: Dinner, k: nat, pc: Pc): Dinner
    requires Sized(s) && k < |s.mood|
  {
    s.(pc := s.pc[k := pc])
  }

  predicate Enabled(s: Dinner, k: nat) {
    Sized(s) && k < |s.mood| && !s.pc[k].QueuedToWait? && !s.pc[k].QueuedForMeal? && !s.pc[k].QueuedToRest?
  }

  /** The next statement of philosopher k, in philoWait or philoRest. */
  function Do(s: Dinner, k: nat): Dinner
    requires Enabled(s, k)
  {
    var n := |s.mood|;
    match s.pc[k]
    case Outside => EnterGate(s, k, SetWaiting, QueuedToWait)
    case SetWaiting => At(s, k, TestSelf).(mood := s.mood[k := Waiting])
    case TestSelf => TestEat(At(s, k, LeaveWait), k)
    case LeaveWait => LeaveGate(s, k, AskMeal)
    case AskMeal =>
      var (sem, now) := Wait(s.own[k], k);
      At(s, k, if now then Meal else QueuedForMeal).(own := s.own[k := sem])
    case Meal => EnterGate(s, k, SetDeciding, QueuedToRest)
    case SetDeciding => At(s, k, TestLeft).(mood := s.mood[k := Deciding])
    case TestLeft => TestEat(At(s, k, TestRight), Left(k, n))
    case TestRight => TestEat(At(s, k, LeaveRest), Right(k, n))
    case LeaveRest => LeaveGate(s, k, Outside)
    case _ => s
  }

  // ---------------------------------------------------------------- the gate

  predicate Holds(pc: Pc) {
    pc.SetWaiting? || pc.TestSelf? || pc.LeaveWait? || pc.SetDeciding? || pc.TestLeft? || pc.TestRight? || pc.LeaveRest?
  }

  ghost predicate Gated(s: Dinner) {
    && Sized(s) && Fair(s.gate) && 0 <= s.gate.value <= 1
    && (forall j, k :: 0 <= j < k < |s.pc| ==> !(Holds(s.pc[j]) && Holds(s.pc[k])))
    && (s.gate.value == 1 ==> forall k :: 0 <= k < |s.pc| ==> !Holds(s.pc[k]))
    && (s.gate.value == 0 ==> exists k :: 0 <= k < |s.pc| && Holds(s.pc[k]))
    && (forall q :: q in s.gate.blocked <==> 0 <= q < |s.pc| && (s.pc[q].QueuedToWait? || s.pc[q].QueuedToRest?))
  }

  /** Each private semaphore holds back its owner and nobody else. */
  ghost predicate Private(s: Dinner) {
    && Sized(s)
    && forall i :: 0 <= i < |s.own| ==>
         && s.own[i].value >= 0
         && (if s.pc[i].QueuedForMeal? then s.own[i] == Sem(0, [i]) else s.own[i].blocked == [])
  }

  lemma GatedByEnter(s: Dinner, k: nat, inside: Pc, queued: Pc)
    requires Gated(s) && k < |s.mood| && (s.pc[k].Outside? || s.pc[k].Meal?)
    requires Holds(inside) && (queued.QueuedToWait? || queued.QueuedToRest?)
    ensures Gated(EnterGate(s, k, inside, queued))
  {
    hide Fair;
    var s' := EnterGate(s, k, inside, queued);
    WaitFair(s.gate, k);
    if s.gate.value > 0 {
      assert Holds(s'.pc[k]);
    } else {
      var h :| 0 <= h < |s.pc| && Holds(s.pc[h]);
      assert Holds(s'.pc[h]);
    }
  }

  lemma GatedByLeave(s: Dinner, k: nat, after: Pc)
    requires Gated(s) && k < |s.mood| && Holds(s.pc[k]) && (after.Outside? || after.AskMeal?)
    ensures Gated(LeaveGate(s, k, after))
  {
    var s' := LeaveGate(s, k, after);
    PostFair(s.gate);
    WakesWaiter(s.gate);
    if s.gate.blocked != [] {
      assert Holds(s'.pc[s.gate.blocked[0]]);
    }
  }

  /** Steps inside or away from the gate. */
  lemma GatedBeside(s: Dinner, s': Dinner)
    requires Gated(s) && Sized(s') && |s'.pc| == |s.pc| && s'.gate == s.gate
    requires forall k :: 0 <= k < |s.pc| ==>
               && (Holds(s'.pc[k]) <==> Holds(s.pc[k]))
               && (s'.pc[k].QueuedToWait? || s'.pc[k].QueuedToRest? <==> s.pc[k].QueuedToWait? || s.pc[k].QueuedToRest?)
    ensures Gated(s')
  {
    if s.gate.value == 0 {
      var h :| 0 <= h < |s.pc| && Holds(s.pc[h]);
      assert Holds(s'.pc[h]);
    }
  }

  /** testEat wakes only the philosopher tested, and only from its wait for a meal. */
  lemma TestWakes(s: Dinner, i: nat)
    requires Private(s) && i < |s.mood|
    ensures var s' := TestEat(s, i);
      && Sized(s') && s'.gate == s.gate && |s'.pc| == |s.pc| && s'.mood == Tested(s.mood, i)
      && (forall j :: 0 <= j < |s.pc| && j != i ==> s'.pc[j] == s.pc[j] && s'.own[j] == s.own[j])
      && s'.pc[i] == (if CanEat(s.mood, i) && s.pc[i].QueuedForMeal? then Meal else s.pc[i])
      && s'.own[i].value == s.own[i].value + (if CanEat(s.mood, i) && !s.pc[i].QueuedForMeal? then 1 else 0)
      && (s'.own[i].blocked == if s'.pc[i].QueuedForMeal? then [i] else [])
  {}

  /** The state in which philosopher k, inside the gate, has moved on to pc. */
  lemma PrivateAt(s: Dinner, k: nat, pc: Pc)
    requires Private(s) && k < |s.mood| && !s.pc[k].QueuedForMeal? && !pc.QueuedForMeal?
    ensures Private(At(s, k, pc))
  {}

  lemma PrivateByTest(s: Dinner, i: nat)
    requires Private(s) && i < |s.mood|
    ensures Private(TestEat(s, i))
  {
    TestWakes(s, i);
  }

  lemma PrivateByLeave(s: Dinner, k: nat, after: Pc)
    requires Private(s) && Gated(s) && k < |s.mood| && Holds(s.pc[k]) && !after.QueuedForMeal?
    ensures Private(LeaveGate(s, k, after))
  {
    WakesWaiter(s.gate);
  }

  lemma GatesKept(s: Dinner, k: nat)
    requires Gated(s) && Private(s) && Enabled(s, k)
    ensures Gated(Do(s, k)) && Private(Do(s, k))
  {
    hide Gated, Private, TestEat, EnterGate, LeaveGate;
    var s', n := Do(s, k), |s.mood|;
    match s.pc[k]
    case Outside => GatedByEnter(s, k, SetWaiting, QueuedToWait); PrivateByEnter(s, k, SetWaiting, QueuedToWait);
    case Meal => GatedByEnter(s, k, SetDeciding, QueuedToRest); PrivateByEnter(s, k, SetDeciding, QueuedToRest);
    case LeaveWait => GatedByLeave(s, k, AskMeal); PrivateByLeave(s, k, AskMeal);
    case LeaveRest => GatedByLeave(s, k, Outside); PrivateByLeave(s, k, Outside);
    case SetWaiting => GatedBeside(s, s'); PrivateAt(s, k, TestSelf); PrivateOf(At(s, k, TestSelf), s');
    case SetDeciding => GatedBeside(s, s'); PrivateAt(s, k, TestLeft); PrivateOf(At(s, k, TestLeft), s');
    case AskMeal => PrivateByAsk(s, k); GatedBeside(s, s');
    case TestSelf => GatesKeptByTest(s, k, LeaveWait, k);
    case TestLeft => GatesKeptByTest(s, k, TestRight, Left(k, n));
    case TestRight => GatesKeptByTest(s, k, LeaveRest, Right(k, n));
    case _ =>
  }

  lemma PrivateByEnter(s: Dinner, k: nat, inside: Pc, queued: Pc)
    requires Private(s) && k < |s.mood| && !s.pc[k].QueuedForMeal? && !inside.QueuedForMeal? && !queued.QueuedForMeal?
    ensures Private(EnterGate(s, k, inside, queued))
  {}

  lemma PrivateOf(s: Dinner, s': Dinner)
    requires Private(s) && Sized(s') && s'.own == s.own && s'.pc == s.pc
    ensures Private(s')
  {}

  lemma PrivateByAsk(s: Dinner, k: nat)
    requires Private(s) && k < |s.mood| && s.pc[k].AskMeal?
    ensures Private(Do(s, k))
  {}

  lemma GatesKeptByTest(s: Dinner, k: nat, pc: Pc, i: nat)
    requires Gated(s) && Private(s) && k < |s.mood| && i < |s.mood| && Holds(s.pc[k]) && Holds(pc)
    ensures Gated(TestEat(At(s, k, pc), i)) && Private(TestEat(At(s, k, pc), i))
  {
    hide Gated, TestEat;
    PrivateAt(s, k, pc);
    TestWakes(At(s, k, pc), i);
    PrivateByTest(At(s, k, pc), i);
    GatedBeside(s, TestEat(At(s, k, pc), i));
  }

  // ---------------------------------------------------------------- the states

  lemma ModOnce(x: nat, n: nat)
    requires 0 < n <= x < 2 * n
    ensures x % n == x - n
  {
    var q := x / n;
    assert x == q * n + x % n;
    assert (q >= 2 ==> q * n >= 2 * n) && (q <= 0 ==> q * n <= 0);
  }

  lemma LeftIs(i: nat, n: nat)
    requires i < n
    ensures Left(i, n) == if i == 0 then n - 1 else i - 1
  {
    if i > 0 { ModOnce(i + n - 1, n); }
  }

  lemma RightIs(i: nat, n: nat)
    requires i < n
    ensures Right(i, n) == if i == n - 1 then 0 else i + 1
  {
    if i == n - 1 { ModOnce(n, n); }
  }

  lemma Ring(i: nat, n: nat)
    requires i < n
    ensures Left(Right(i, n), n) == i && Right(Left(i, n), n) == i
    ensures n >= 2 ==> Left(i, n) != i && Right(i, n) != i
  {
    hide Left, Right;
    LeftIs(i, n);
    RightIs(i, n);
    LeftIs(Right(i, n), n);
    RightIs(Left(i, n), n);
  }

  /** No two neighbours eat. */
  ghost predicate Peace(mood: seq<Mood>) {
    forall i :: 0 <= i < |mood| ==> !(mood[i] == Eating && mood[Right(i, |mood|)] == Eating)
  }

  predicate NeighbourEats(mood: seq<Mood>, i: nat)
    requires i < |mood|
  {
    mood[Left(i, |mood|)] == Eating || mood[Right(i, |mood|)] == Eating
  }

  lemma PeaceByTest(mood: seq<Mood>, i: nat)
    requires Peace(mood) && i < |mood| && |mood| >= 2
    ensures Peace(Tested(mood, i))
  {
    hide Left, Right;
    var n, r := |mood|, Tested(mood, i);
    Ring(i, n);
    forall j | 0 <= j < n ensures !(r[j] == Eating && r[Right(j, n)] == Eating) {
      Ring(j, n);
      assert !(mood[j] == Eating && mood[Right(j, n)] == Eating);
    }
  }

  /** A test settles the philosopher tested and takes no eating neighbour from any other. */
  lemma TestSettles(mood: seq<Mood>, i: nat, j: nat)
    requires i < |mood| && j < |mood| && |mood| >= 2
    ensures var r := Tested(mood, i);
      && (r[i] == Waiting ==> NeighbourEats(r, i))
      && (j != i ==> r[j] == mood[j])
      && (NeighbourEats(mood, j) ==> NeighbourEats(r, j))
  {
    Ring(i, |mood|);
    Ring(j, |mood|);
  }

  /** philosopher h, at pc, has yet to test j. */
  predicate ToTest(pc: Pc, h: nat, j: nat, n: nat)
    requires h < n
  {
    match pc
    case TestSelf => j == h
    case TestLeft => j == Left(h, n) || j == Right(h, n)
    case TestRight => j == Right(h, n)
    case _ => false
  }

  /** Who waits has an eating neighbour, unless somebody is about to test it. */
  ghost predicate Served(s: Dinner)
    requires Sized(s)
  {
    forall j :: 0 <= j < |s.mood| && s.mood[j] == Waiting && !NeighbourEats(s.mood, j) ==>
      exists h :: 0 <= h < |s.pc| && ToTest(s.pc[h], h, j, |s.mood|)
  }

  /** Where each philosopher stands tells whether it is deciding. */
  predicate Matches(pc: Pc, mood: Mood) {
    match pc
    case Outside | QueuedToWait | SetWaiting | TestLeft | TestRight | LeaveRest => mood == Deciding
    case _ => mood != Deciding
  }

  ghost predicate Matched(s: Dinner)
    requires Sized(s)
  {
    forall i :: 0 <= i < |s.pc| ==> Matches(s.pc[i], s.mood[i])
  }

  ghost predicate Settled(s: Dinner) { Sized(s) && Peace(s.mood) && Served(s) && Matched(s) }

  lemma MatchedByTest(s: Dinner, k: nat, pc: Pc, i: nat)
    requires Sized(s) && Private(s) && Matched(s) && k < |s.mood| && i < |s.mood| && !s.pc[k].QueuedForMeal?
             && !pc.QueuedForMeal?
    requires forall mood :: Matches(s.pc[k], mood) ==> Matches(pc, mood)
    ensures Matched(TestEat(At(s, k, pc), i))
  {
    hide TestEat, Private, Left, Right;
    var t := At(s, k, pc);
    PrivateAt(s, k, pc);
    TestWakes(t, i);
    assert Matched(t);
  }

  lemma SettledByTest(s: Dinner, k: nat, pc: Pc, i: nat)
    requires Settled(s) && Private(s) && k < |s.mood| && i < |s.mood| && !s.pc[k].QueuedForMeal? && !pc.QueuedForMeal?
    requires forall mood :: Matches(s.pc[k], mood) ==> Matches(pc, mood)
    requires forall j: nat :: ToTest(s.pc[k], k, j, |s.mood|) ==> j == i || ToTest(pc, k, j, |s.mood|)
    ensures Settled(TestEat(At(s, k, pc), i))
  {
    hide Private, TestEat, Peace, Fair, NeighbourEats, Matched, Left, Right, Tested;
    MatchedByTest(s, k, pc, i);
    var t, s' := At(s, k, pc), TestEat(At(s, k, pc), i);
    PrivateAt(s, k, pc);
    TestWakes(t, i);
    PeaceByTest(s.mood, i);
    assert Sized(s') && Peace(s'.mood) && Matched(s');
    forall j | 0 <= j < |s.mood| && s'.mood[j] == Waiting && !NeighbourEats(s'.mood, j)
      ensures exists h :: 0 <= h < |s'.pc| && ToTest(s'.pc[h], h, j, |s.mood|)
    {
      TestSettles(s.mood, i, j);
      var h :| 0 <= h < |s.pc| && ToTest(s.pc[h], h, j, |s.mood|);
      assert ToTest(s'.pc[h], h, j, |s.mood|);
    }
  }

  lemma SettledBySetWaiting(s: Dinner, k: nat)
    requires Settled(s) && Enabled(s, k) && s.pc[k].SetWaiting?
    ensures Settled(Do(s, k))
  {
    var s', n := Do(s, k), |s.mood|;
    assert Matches(s.pc[k], s.mood[k]);
    forall j | 0 <= j < n && s'.mood[j] == Waiting && !NeighbourEats(s'.mood, j)
      ensures exists h :: 0 <= h < n && ToTest(s'.pc[h], h, j, n)
    {
      if j == k {
        assert ToTest(s'.pc[k], k, j, n);
      } else {
        var h :| 0 <= h < n && ToTest(s.pc[h], h, j, n);
        assert ToTest(s'.pc[h], h, j, n);
      }
    }
  }

  lemma SettledBySetDeciding(s: Dinner, k: nat)
    requires Settled(s) && Enabled(s, k) && s.pc[k].SetDeciding?
    ensures Settled(Do(s, k))
  {
    var s', n := Do(s, k), |s.mood|;
    forall j | 0 <= j < n && s'.mood[j] == Waiting && !NeighbourEats(s'.mood, j)
      ensures exists h :: 0 <= h < n && ToTest(s'.pc[h], h, j, n)
    {
      Ring(j, n);
      Ring(k, n);
      if NeighbourEats(s.mood, j) {
        assert ToTest(s'.pc[k], k, j, n);
      } else {
        var h :| 0 <= h < n && ToTest(s.pc[h], h, j, n);
        assert ToTest(s'.pc[h], h, j, n);
      }
    }
  }

  /** Steps that leave the states alone. */
  lemma SettledBeside(s: Dinner, s': Dinner)
    requires Settled(s) && Sized(s') && s'.mood == s.mood
    requires forall i :: 0 <= i < |s.pc| ==>
               && Matches(s'.pc[i], s.mood[i])
               && (s.pc[i].TestSelf? || s.pc[i].TestLeft? || s.pc[i].TestRight? ==> s'.pc[i] == s.pc[i])
    ensures Settled(s')
  {
    var n := |s.mood|;
    forall j | 0 <= j < n && s.mood[j] == Waiting && !NeighbourEats(s.mood, j)
      ensures exists h :: 0 <= h < n && ToTest(s'.pc[h], h, j, n)
    {
      var h :| 0 <= h < n && ToTest(s.pc[h], h, j, n);
      assert ToTest(s'.pc[h], h, j, n);
    }
  }

  lemma SettledKept(s: Dinner, k: nat)
    requires Settled(s) && Gated(s) && Private(s) && Enabled(s, k)
    ensures Settled(Do(s, k))
  {
    hide Served, Peace, Private, Fair;
    var s', n := Do(s, k), |s.mood|;
    assert Matches(s.pc[k], s.mood[k]);
    match s.pc[k]
    case SetWaiting => SettledBySetWaiting(s, k);
    case SetDeciding => SettledBySetDeciding(s, k);
    case TestSelf => SettledByTest(s, k, LeaveWait, k);
    case TestLeft => SettledByTest(s, k, TestRight, Left(k, n));
    case TestRight => SettledByTest(s, k, LeaveRest, Right(k, n));
    case LeaveWait => WakesWaiter(s.gate); SettledBeside(s, s');
    case LeaveRest => WakesWaiter(s.gate); SettledBeside(s, s');
    case _ => SettledBeside(s, s');
  }

  // ---------------------------------------------------------------- runs

  /** The table as it is set: all deciding, the gate open, the private semaphores at firstValue. */
  function Created(n: nat, firstValue: nat): Dinner {
    Dinner(seq(n, _ => Deciding), Sem(1, []), seq(n, _ => Sem(firstValue, [])), seq(n, _ => Outside))
  }

  /** The philosophers named by steps move one after the other; None if one of them cannot. */
  function Follow(s: Dinner, steps: seq<nat>): Option<Dinner>
    decreases |steps|
  {
    if steps == [] then Some(s)
    else if Enabled(s, steps[0]) then Follow(Do(s, steps[0]), steps[1..]) else None
  }

  ghost predicate Inv(s: Dinner) { Gated(s) && Private(s) && Settled(s) }

  lemma {:induction false} FollowKeepsInv(s: Dinner, steps: seq<nat>)
    requires Inv(s)
    ensures Follow(s, steps).Some? ==> Inv(Follow(s, steps).value)
    decreases |steps|
  {
    hide Gated, Private, Settled, Do;
    if steps == [] {
    } else if Enabled(s, steps[0]) {
      GatesKept(s, steps[0]);
      SettledKept(s, steps[0]);
      FollowKeepsInv(Do(s, steps[0]), steps[1..]);
    }
  }

  lemma CreatedInv(n: nat, firstValue: nat)
    requires n >= 2
    ensures Inv(Created(n, firstValue))
  {}

  /** Over every interleaving, whatever the private semaphores start with: no two neighbours
      are EATING, and while the gate is free every WAITING philosopher has an EATING
      neighbour. A philosopher queued at the gate waits for one inside it. */
  lemma TableIsPeaceful(n: nat, firstValue: nat, steps: seq<nat>)
    requires n >= 2 && Follow(Created(n, firstValue), steps).Some?
    ensures var s := Follow(Created(n, firstValue), steps).value;
      && Sized(s) && Peace(s.mood)
      && (s.gate.value == 1 ==> AllServed(s.mood))
      && (s.gate.blocked != [] ==> exists h :: 0 <= h < |s.pc| && Holds(s.pc[h]))
      && (forall j, k :: 0 <= j < k < |s.pc| ==> !(Holds(s.pc[j]) && Holds(s.pc[k])))
  {
    hide Peace, AllServed;
    CreatedInv(n, firstValue);
    FollowKeepsInv(Created(n, firstValue), steps);
    var s := Follow(Created(n, firstValue), steps).value;
    if s.gate.value == 1 {
      NoneLeftToTest(s);
    }
  }

  ghost predicate AllServed(mood: seq<Mood>) {
    forall j :: 0 <= j < |mood| && mood[j] == Waiting ==> NeighbourEats(mood, j)
  }

  lemma NoneLeftToTest(s: Dinner)
    requires Settled(s)
    requires forall h :: 0 <= h < |s.pc| ==> !s.pc[h].TestSelf? && !s.pc[h].TestLeft? && !s.pc[h].TestRight?
    ensures AllServed(s.mood)
  {
    hide Peace, NeighbourEats;
    forall j | 0 <= j < |s.mood| && s.mood[j] == Waiting ensures NeighbourEats(s.mood, j) {
      assert forall h :: 0 <= h < |s.pc| ==> !ToTest(s.pc[h], h, j, |s.mood|);
    }
  }

  // ---------------------------------------------------------------- progress

  /** Whoever queues for its meal is WAITING, and whoever is EATING finds a place at its own
      semaphore for as long as it still has to ask. */
  predicate MealOk(pc: Pc, mood: Mood, value: int) {
    && (pc.QueuedForMeal? ==> mood == Waiting)
    && (mood == Eating && (pc.TestSelf? || pc.LeaveWait? || pc.AskMeal?) ==> value > 0)
  }

  ghost predicate MealsServed(s: Dinner) {
    Sized(s) && forall i :: 0 <= i < |s.pc| ==> MealOk(s.pc[i], s.mood[i], s.own[i].value)
  }

  lemma MealsByTest(s: Dinner, k: nat, pc: Pc, i: nat)
    requires MealsServed(s) && Private(s) && Matched(s)
    requires k < |s.mood| && i < |s.mood| && !s.pc[k].QueuedForMeal? && !pc.QueuedForMeal?
    requires forall mood, value :: MealOk(s.pc[k], mood, value) ==> MealOk(pc, mood, value)
    requires forall mood :: Matches(s.pc[k], mood) ==> Matches(pc, mood)
    ensures MealsServed(TestEat(At(s, k, pc), i))
  {
    hide TestEat, Private, Left, Right;
    var t := At(s, k, pc);
    PrivateAt(s, k, pc);
    TestWakes(t, i);
    assert MealOk(t.pc[i], t.mood[i], t.own[i].value) && Matches(t.pc[i], t.mood[i]);
  }

  lemma MealsKept(s: Dinner, k: nat)
    requires MealsServed(s) && Settled(s) && Gated(s) && Private(s) && Enabled(s, k)
    ensures MealsServed(Do(s, k))
  {
    hide Peace, Served, Fair, Left, Right, TestEat;
    var s', n := Do(s, k), |s.mood|;
    assert MealOk(s.pc[k], s.mood[k], s.own[k].value) && Matches(s.pc[k], s.mood[k]);
    match s.pc[k]
    case TestSelf => MealsByTest(s, k, LeaveWait, k);
    case TestLeft => MealsByTest(s, k, TestRight, Left(k, n));
    case TestRight => MealsByTest(s, k, LeaveRest, Right(k, n));
    case LeaveWait => WakesWaiter(s.gate);
    case LeaveRest => WakesWaiter(s.gate);
    case _ =>
  }

  lemma {:induction false} FollowKeepsMeals(s: Dinner, steps: seq<nat>)
    requires Inv(s) && MealsServed(s)
    ensures Follow(s, steps).Some? ==> Inv(Follow(s, steps).value) && MealsServed(Follow(s, steps).value)
    decreases |steps|
  {
    hide Gated, Private, Settled, MealsServed, Do;
    if steps == [] {
    } else if Enabled(s, steps[0]) {
      GatesKept(s, steps[0]);
      SettledKept(s, steps[0]);
      MealsKept(s, steps[0]);
      FollowKeepsMeals(Do(s, steps[0]), steps[1..]);
    }
  }

  /** The table never comes to a standstill: in every reachable state, whatever the private
      semaphores start with, some philosopher can move. */
  lemma NeverStuck(n: nat, firstValue: nat, steps: seq<nat>)
    requires n >= 2 && Follow(Created(n, firstValue), steps).Some?
    ensures exists k :: Enabled(Follow(Created(n, firstValue), steps).value, k)
  {
    CreatedInv(n, firstValue);
    FollowKeepsMeals(Created(n, firstValue), steps);
    var k := SomeoneMoves(Follow(Created(n, firstValue), steps).value);
  }

  lemma HolderAtGate(s: Dinner, k: nat) returns (h: nat)
    requires Gated(s) && k < |s.pc| && (s.pc[k].QueuedToWait? || s.pc[k].QueuedToRest?)
    ensures h < |s.pc| && Holds(s.pc[h])
  {
    assert k in s.gate.blocked;
    h :| h < |s.pc| && Holds(s.pc[h]);
  }

  lemma AllWaitingUnserved(mood: seq<Mood>)
    requires |mood| >= 2 && forall i :: 0 <= i < |mood| ==> mood[i] == Waiting
    ensures !AllServed(mood)
  {
    assert !NeighbourEats(mood, 0);
  }

  /** Not all of them queue for their meals: they would all be WAITING and each be served by a
      neighbour that is EATING. */
  lemma NotAllQueuedForMeal(s: Dinner)
    requires Settled(s) && MealsServed(s)
    ensures exists k :: 0 <= k < |s.pc| && !s.pc[k].QueuedForMeal?
  {
    hide Peace, Served, AllServed;
    if forall k :: 0 <= k < |s.pc| ==> s.pc[k].QueuedForMeal? {
      forall k | 0 <= k < |s.mood| ensures s.mood[k] == Waiting {
        assert MealOk(s.pc[k], s.mood[k], s.own[k].value);
      }
      AllWaitingUnserved(s.mood);
      NoneLeftToTest(s);
    }
  }

  lemma SomeoneMoves(s: Dinner) returns (k: nat)
    requires Inv(s) && MealsServed(s)
    ensures Enabled(s, k)
  {
    hide Peace, Private, Fair, Served;
    NotAllQueuedForMeal(s);
    k :| k < |s.pc| && !s.pc[k].QueuedForMeal?;
    if s.pc[k].QueuedToWait? || s.pc[k].QueuedToRest? {
      k := HolderAtGate(s, k);
    }
  }

  // ---------------------------------------------------------------- meals

  /** The private semaphore holds a place exactly between the test that granted it and the
      wait that takes it; this is how things stand if the semaphores start at 0. */
  predicate TokenOk(pc: Pc, mood: Mood, value: int) {
    match pc
    case QueuedForMeal => mood == Waiting && value == 0
    case Meal | QueuedToRest | SetDeciding => mood == Eating && value == 0
    case TestSelf | LeaveWait | AskMeal => value == if mood == Eating then 1 else 0
    case _ => value == 0
  }

  ghost predicate Tokens(s: Dinner) {
    Sized(s) && forall i :: 0 <= i < |s.pc| ==> TokenOk(s.pc[i], s.mood[i], s.own[i].value)
  }

  lemma TokensByTest(s: Dinner, k: nat, pc: Pc, i: nat)
    requires Sized(s) && Tokens(s) && Private(s) && Matched(s)
    requires k < |s.mood| && i < |s.mood| && !s.pc[k].QueuedForMeal? && !pc.QueuedForMeal?
    requires forall mood, value :: TokenOk(s.pc[k], mood, value) ==> TokenOk(pc, mood, value)
    requires forall mood :: Matches(s.pc[k], mood) ==> Matches(pc, mood)
    ensures Tokens(TestEat(At(s, k, pc), i))
  {
    hide TestEat, Private, Left, Right;
    var t := At(s, k, pc);
    PrivateAt(s, k, pc);
    TestWakes(t, i);
    assert TokenOk(t.pc[i], t.mood[i], t.own[i].value) && Matches(t.pc[i], t.mood[i]);
  }

  lemma TokensKept(s: Dinner, k: nat)
    requires Tokens(s) && Settled(s) && Gated(s) && Private(s) && Enabled(s, k)
    ensures Tokens(Do(s, k))
  {
    hide Peace, Served, Fair, Left, Right, TestEat;
    var s', n := Do(s, k), |s.mood|;
    assert TokenOk(s.pc[k], s.mood[k], s.own[k].value) && Matches(s.pc[k], s.mood[k]);
    match s.pc[k]
    case TestSelf => TokensByTest(s, k, LeaveWait, k);
    case TestLeft => TokensByTest(s, k, TestRight, Left(k, n));
    case TestRight => TokensByTest(s, k, LeaveRest, Right(k, n));
    case LeaveWait => WakesWaiter(s.gate);
    case LeaveRest => WakesWaiter(s.gate);
    case _ =>
  }

  lemma {:induction false} FollowKeepsTokens(s: Dinner, steps: seq<nat>)
    requires Inv(s) && Tokens(s)
    ensures Follow(s, steps).Some? ==> Inv(Follow(s, steps).value) && Tokens(Follow(s, steps).value)
    decreases |steps|
  {
    hide Gated, Private, Settled, Tokens, Do;
    if steps == [] {
    } else if Enabled(s, steps[0]) {
      GatesKept(s, steps[0]);
      SettledKept(s, steps[0]);
      TokensKept(s, steps[0]);
      FollowKeepsTokens(Do(s, steps[0]), steps[1..]);
    }
  }

  /** No two neighbours are in the section between philoWait and philoRest. */
  ghost predicate MealsApart(s: Dinner) {
    Sized(s) && forall i :: 0 <= i < |s.pc| ==> !(s.pc[i].Meal? && s.pc[Right(i, |s.pc|)].Meal?)
  }

  ghost predicate AlwaysApart(n: nat, firstValue: nat) {
    forall steps: seq<nat> :: Follow(Created(n, firstValue), steps).Some? ==>
        MealsApart(Follow(Created(n, firstValue), steps).value)
  }

  /** Four moves take a philosopher through the gate and out of it again. */
  lemma WalksThroughGate(s: Dinner, k: nat)
    requires Sized(s) && k < |s.mood| && s.gate == Sem(1, []) && s.pc[k] == Outside
    requires s.own[k].value >= 1 && s.own[k].blocked == []
    ensures Enabled(s, k) && Enabled(Do(s, k), k) && Enabled(Do(Do(s, k), k), k) && Enabled(Do(Do(Do(s, k), k), k), k)
    ensures var d := Do(Do(Do(Do(s, k), k), k), k);
      && Sized(d) && d.gate == Sem(1, []) && d.pc == s.pc[k := AskMeal] && d.own[k].value >= 1 && d.own[k].blocked == []
      && forall j :: 0 <= j < |s.own| && j != k ==> d.own[j] == s.own[j]
  {
    hide Left, Right;
    var a := Do(s, k);
    assert a == s.(gate := Sem(0, []), pc := s.pc[k := SetWaiting]);
    var b := Do(a, k);
    assert b == a.(mood := s.mood[k := Waiting], pc := s.pc[k := TestSelf]);
    var c := Do(b, k);
    assert c.gate == Sem(0, []) && c.pc == s.pc[k := LeaveWait] && c.own[k].value >= 1 && c.own[k].blocked == [];
    assert Do(c, k) == c.(gate := Sem(1, []), pc := s.pc[k := AskMeal]);
  }

  /** Five moves take a philosopher to the table if its semaphore already has a place. */
  lemma WalksIn(s: Dinner, k: nat, rest: seq<nat>) returns (t: Dinner)
    requires Sized(s) && k < |s.mood| && s.gate == Sem(1, []) && s.pc[k] == Outside
    requires s.own[k].value >= 1 && s.own[k].blocked == []
    ensures Sized(t) && t.gate == Sem(1, []) && t.pc == s.pc[k := Meal]
    ensures forall j :: 0 <= j < |s.own| && j != k ==> t.own[j] == s.own[j]
    ensures Follow(s, [k, k, k, k, k] + rest) == Follow(t, rest)
  {
    WalksThroughGate(s, k);
    var d := Do(Do(Do(Do(s, k), k), k), k);
    t := Do(d, k);
    assert t.pc == s.pc[k := Meal];
    FollowFive(s, k, rest);
  }

  lemma FollowFive(s: Dinner, k: nat, rest: seq<nat>)
    requires Enabled(s, k) && Enabled(Do(s, k), k) && Enabled(Do(Do(s, k), k), k) && Enabled(Do(Do(Do(s, k), k), k), k)
    requires Enabled(Do(Do(Do(Do(s, k), k), k), k), k)
    ensures Follow(s, [k, k, k, k, k] + rest) == Follow(Do(Do(Do(Do(Do(s, k), k), k), k), k), rest)
  {
    hide Do, Enabled, Follow;
    var a := Do(s, k);
    var b := Do(a, k);
    var c := Do(b, k);
    FollowOne(s, k, [k, k, k, k] + rest);
    FollowOne(a, k, [k, k, k] + rest);
    FollowOne(b, k, [k, k] + rest);
    FollowOne(c, k, [k] + rest);
    FollowOne(Do(c, k), k, rest);
    assert [k] + ([k, k, k, k] + rest) == [k, k, k, k, k] + rest && [k] + ([k, k, k] + rest) == [k, k, k, k] + rest
      && [k] + ([k, k] + rest) == [k, k, k] + rest && [k] + ([k] + rest) == [k, k] + rest;
  }

  lemma FollowOne(s: Dinner, k: nat, rest: seq<nat>)
    requires Enabled(s, k)
    ensures Follow(s, [k] + rest) == Follow(Do(s, k), rest)
  {
    assert ([k] + rest)[1..] == rest;
  }

  /** Neighbours never eat at the same time, in any run, if and only if the private
      semaphores are created with 0. The source creates them with 1. */
  lemma MealsApartIffZero(n: nat, firstValue: nat)
    requires n >= 2
    ensures AlwaysApart(n, firstValue) <==> firstValue == 0
  {
    var s := Created(n, firstValue);
    if firstValue == 0 {
      CreatedInv(n, 0);
      forall steps: seq<nat> | Follow(s, steps).Some? ensures MealsApart(Follow(s, steps).value) {
        ZeroKeepsApart(n, steps);
      }
    } else {
      var rest := [1, 1, 1, 1, 1] + [];
      var t := WalksIn(s, 0, rest);
      var u := WalksIn(t, 1, []);
      RightIs(0, n);
      assert u.pc[0].Meal? && u.pc[Right(0, n)].Meal?;
      assert !MealsApart(u);
      assert Follow(s, [0, 0, 0, 0, 0] + rest) == Some(u);
    }
  }

  lemma ZeroKeepsApart(n: nat, steps: seq<nat>)
    requires n >= 2 && Follow(Created(n, 0), steps).Some?
    ensures MealsApart(Follow(Created(n, 0), steps).value)
    ensures var s := Follow(Created(n, 0), steps).value;
      Sized(s) && forall i :: 0 <= i < |s.pc| && s.pc[i].Meal? ==> s.mood[i] == Eating
  {
    CreatedInv(n, 0);
    FollowKeepsTokens(Created(n, 0), steps);
    var s := Follow(Created(n, 0), steps).value;
    forall i | 0 <= i < |s.pc| && s.pc[i].Meal? ensures s.mood[i] == Eating {
      assert TokenOk(s.pc[i], s.mood[i], s.own[i].value);
    }
  }
}

/** The array of philosophers as testEat, philoWait and philoRest of
    Userland/SampleCodeModule/lib/phylo.c change it in place while they hold gateMutex. */
module PhilosopherTable {
  import opened Handoff
  import opened Philosophers

  class Table {
    const mood: array<Mood>
    const own: array<Sem>
    var gate: Sem
    ghost var pc: seq<Pc>

    ghost function State(): Dinner
      reads this, mood, own
    {
      Dinner(mood[..], gate, own[..], pc)
    }

    /** phylo, up to where the philosophers are started. */
    constructor (n: nat, firstValue: nat)
      requires n >= 2
      ensures State() == Created(n, firstValue) && Inv(State())
      ensures fresh(mood) && fresh(own)
    {
      mood := new Mood[n](_ => Deciding);
      own := new Sem[n](_ => Sem(firstValue, []));
      gate := Sem(1, []);
      pc := seq(n, _ => Outside);
      new;
      CreatedInv(n, firstValue);
      assert State() == Created(n, firstValue);
    }

    method TestEat(index: nat)
      requires Sized(State()) && index < mood.Length
      modifies this, mood, own
      ensures State() == Philosophers.TestEat(old(State()), index)
      ensures gate == old(gate)
    {
      var n := mood.Length;
      if mood[index] == Waiting && mood[Left(index, n)] != Eating && mood[Right(index, n)] != Eating {
        mood[index] := Eating;
        var r := Post(own[index]);
        own[index] := r.0;
        pc := Freed(pc, r.1);
      }
    }

    /** philoWait between its semWait and its semPost on the gate. */
    method Sit(index: nat)
      requires Inv(State()) && index < mood.Length && pc[index] == SetWaiting
      modifies this, mood, own
      ensures State() == Do(Do(old(State()), index), index)
      ensures Inv(State()) && AllServed(mood[..])
      ensures mood[index] == if NeighbourEats(old(mood[..]), index) then Waiting else Eating
    {
      hide Gated, Private, Settled;
      ghost var s := State();
      BodyOfWait(s, index);
      mood[index] := Waiting;
      pc := pc[index := LeaveWait];
      TestEat(index);
    }

    /** philoRest between its semWait and its semPost on the gate. */
    method Rest(index: nat)
      requires Inv(State()) && index < mood.Length && pc[index] == SetDeciding
      modifies this, mood, own
      ensures State() == Do(Do(Do(old(State()), index), index), index)
      ensures Inv(State()) && AllServed(mood[..]) && mood[index] == Deciding
    {
      hide Gated, Private, Settled;
      ghost var s := State();
      BodyOfRest(s, index);
      mood[index] := Deciding;
      pc := pc[index := TestRight];
      TestEat(Left(index, mood.Length));
      pc := pc[index := LeaveRest];
      TestEat(Right(index, mood.Length));
    }
  }

  /** The statements of philoWait inside the gate, taken together. */
  lemma BodyOfWait(s: Dinner, k: nat)
    requires Inv(s) && k < |s.mood| && s.pc[k] == SetWaiting
    ensures Sized(s) && Enabled(s, k) && Enabled(Do(s, k), k)
    ensures var t := Do(Do(s, k), k);
      && t == TestEat(s.(mood := s.mood[k := Waiting], pc := s.pc[k := LeaveWait]), k)
      && Inv(t) && AllServed(t.mood) && Sized(t)
      && t.mood[k] == if NeighbourEats(s.mood, k) then Waiting else Eating
  {
    hide Peace, Served, Fair, TestEat, AllServed;
    var a := Do(s, k);
    GatesKept(s, k);
    SettledKept(s, k);
    GatesKept(a, k);
    SettledKept(a, k);
    var t := Do(a, k);
    assert a.pc[k := LeaveWait] == s.pc[k := LeaveWait];
    TestWakes(At(a, k, LeaveWait), k);
    Ring(k, |s.mood|);
    OnlyHolder(s, k);
    NoneLeftToTest(t);
  }

  lemma BodyOfRest(s: Dinner, k: nat)
    requires Inv(s) && k < |s.mood| && s.pc[k] == SetDeciding
    ensures Sized(s) && Enabled(s, k) && Enabled(Do(s, k), k) && Enabled(Do(Do(s, k), k), k)
    ensures var a := TestEat(s.(mood := s.mood[k := Deciding], pc := s.pc[k := TestRight]), Left(k, |s.mood|));
      var t := Do(Do(Do(s, k), k), k);
      && Sized(a) && |a.mood| == |s.mood| && t == TestEat(a.(pc := a.pc[k := LeaveRest]), Right(k, |s.mood|))
      && Inv(t) && AllServed(t.mood) && Sized(t) && t.mood[k] == Deciding
  {
    hide Gated, Settled, Fair, TestEat, AllServed, Left, Right, CanEat;
    var a := Do(s, k);
    GatesKept(s, k);
    SettledKept(s, k);
    GatesKept(a, k);
    SettledKept(a, k);
    assert a.pc[k := TestRight] == s.pc[k := TestRight];
    TestWakes(At(a, k, TestRight), Left(k, |s.mood|));
    var b := Do(a, k);
    assert b.pc[k] == TestRight;
    GatesKept(b, k);
    SettledKept(b, k);
    TestWakes(At(b, k, LeaveRest), Right(k, |s.mood|));
    AfterRest(Do(b, k), k);
  }

  lemma AfterRest(t: Dinner, k: nat)
    requires Inv(t) && k < |t.pc| && t.pc[k] == LeaveRest
    ensures AllServed(t.mood) && t.mood[k] == Deciding
  {
    OnlyHolder(t, k);
    NoneLeftToTest(t);
    assert Matches(t.pc[k], t.mood[k]);
  }

  lemma OnlyHolder(s: Dinner, k: nat)
    requires Gated(s) && k < |s.pc| && Holds(s.pc[k])
    ensures forall h :: 0 <= h < |s.pc| && h != k ==> !Holds(s.pc[h])
  {}
}

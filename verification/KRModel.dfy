/** The K&R allocator (Kernel/memory_manager/memoryManager.c) on abstract values.

    Addresses count headers (16-byte units) from the start of the heap. The free list is
    kept as the sequence of its extents in address order; rover is the position of the
    node that the source calls free_node. */
module KRModel {
  import opened Wrappers

  datatype Extent = Extent(at: nat, size: nat)

  datatype Heap = Heap(units: nat, free: seq<Extent>, rover: nat, live: map<nat, nat>)

  predicate Covers(e: Extent, u: int) { e.at <= u < e.at + e.size }

  ghost predicate InFree(free: seq<Extent>, u: int) {
    exists i :: 0 <= i < |free| && Covers(free[i], u)
  }

  ghost predicate InLive(live: map<nat, nat>, u: int) {
    exists a :: a in live && Covers(Extent(a, live[a]), u)
  }

  /** Address-ordered, and no two extents overlap or even touch. */
  predicate Apart(free: seq<Extent>) {
    && (forall i :: 0 <= i < |free| ==> free[i].size > 0)
    && (forall i, j :: 0 <= i < j < |free| ==> free[i].at + free[i].size < free[j].at)
  }

  ghost predicate LiveApart(live: map<nat, nat>) {
    && (forall a :: a in live ==> live[a] > 0)
    && (forall a, b, u: int ::
          a in live && b in live && Covers(Extent(a, live[a]), u) && Covers(Extent(b, live[b]), u) ==> a == b)
  }

  /** Every unit of the heap is in exactly one free extent or live block. */
  ghost predicate Partition(h: Heap) {
    && (forall u: int :: InFree(h.free, u) || InLive(h.live, u) <==> 0 <= u < h.units)
    && (forall u: int :: !(InFree(h.free, u) && InLive(h.live, u)))
  }

  ghost predicate Inv(h: Heap) {
    && h.rover < |h.free|
    && Apart(h.free)
    && LiveApart(h.live)
    && Partition(h)
    && SumFree(h.free) + SumLive(h.live) == h.units
  }

  // ---------------------------------------------------------------- sums

  function SumFree(free: seq<Extent>): nat {
    if free == [] then 0 else free[0].size + SumFree(free[1..])
  }

  ghost function SumLive(live: map<nat, nat>): nat
    decreases |live|
  {
    if live == map[] then 0
    else
      var a :| a in live;
      live[a] + SumLive(live - {a})
  }

  lemma {:induction false} SumFreeConcat(f: seq<Extent>, g: seq<Extent>)
    ensures SumFree(f + g) == SumFree(f) + SumFree(g)
  {
    if f == [] {
      assert f + g == g;
    } else {
      assert (f + g)[1..] == f[1..] + g;
      SumFreeConcat(f[1..], g);
    }
  }

  lemma {:induction false} SumLiveWithout(live: map<nat, nat>, a: nat)
    requires a in live
    ensures SumLive(live) == live[a] + SumLive(live - {a})
    decreases |live|
  {
    var b :| b in live && SumLive(live) == live[b] + SumLive(live - {b});
    if b == a {
    } else {
      SumLiveWithout(live - {b}, a);
      SumLiveWithout(live - {a}, b);
      assert live - {b} - {a} == live - {a} - {b};
    }
  }

  lemma SumLiveWith(live: map<nat, nat>, a: nat, n: nat)
    requires a !in live
    ensures SumLive(live[a := n]) == n + SumLive(live)
  {
    SumLiveWithout(live[a := n], a);
    assert live[a := n] - {a} == live;
  }

  // ---------------------------------------------------------------- canonical form

  /** Extents that are apart are determined by the units they cover. */
  lemma {:induction false} ApartIsCanonical(f: seq<Extent>, g: seq<Extent>)
    requires Apart(f) && Apart(g)
    requires forall u: int :: InFree(f, u) <==> InFree(g, u)
    ensures f == g
    decreases |f|
  {
    if f == [] {
      if g != [] { FirstCovered(g); assert false; }
    } else if g == [] {
      FirstCovered(f);
      assert false;
    } else {
      SameFirst(f, g);
      SameFirst(g, f);
      var f', g' := f[1..], g[1..];
      forall u: int ensures InFree(f', u) <==> InFree(g', u) {
        TailCovers(f, u);
        TailCovers(g, u);
      }
      ApartIsCanonical(f', g');
      assert f == [f[0]] + f' && g == [g[0]] + g';
    }
  }

  lemma TailCovers(f: seq<Extent>, u: int)
    requires Apart(f) && f != []
    ensures InFree(f[1..], u) <==> InFree(f, u) && !Covers(f[0], u)
  {
    if InFree(f[1..], u) {
      var i :| 0 <= i < |f[1..]| && Covers(f[1..][i], u);
      assert Covers(f[i + 1], u);
    }
    if InFree(f, u) && !Covers(f[0], u) {
      var i :| 0 <= i < |f| && Covers(f[i], u);
      assert Covers(f[1..][i - 1], u);
    }
  }

  lemma SameFirst(f: seq<Extent>, g: seq<Extent>)
    requires Apart(f) && Apart(g) && f != [] && g != []
    requires forall u: int :: InFree(f, u) <==> InFree(g, u)
    ensures f[0].at >= g[0].at
    ensures f[0].at == g[0].at ==> f[0].size <= g[0].size
  {
    FirstCovered(f);
    var i :| 0 <= i < |g| && Covers(g[i], f[0].at);
    var u := g[0].at + g[0].size;
    EndUncovered(g);
    assert !InFree(f, u);
    assert !Covers(f[0], u);
  }

  lemma FirstCovered(f: seq<Extent>)
    requires Apart(f) && f != []
    ensures InFree(f, f[0].at)
  {
    assert Covers(f[0], f[0].at);
  }

  lemma EndUncovered(f: seq<Extent>)
    requires Apart(f) && f != []
    ensures !InFree(f, f[0].at + f[0].size)
  {
    var u := f[0].at + f[0].size;
    forall i | 0 <= i < |f| ensures !Covers(f[i], u) {
      if i > 0 { assert f[0].at + f[0].size < f[i].at; }
    }
  }

  /** With nothing live the free list is one node that spans the heap. */
  lemma NothingLive(h: Heap)
    requires Inv(h) && h.live == map[]
    ensures h.free == [Extent(0, h.units)] && h.rover == 0
  {
    var whole := [Extent(0, h.units)];
    assert Covers(h.free[0], h.free[0].at) && InFree(h.free, h.free[0].at);
    forall u: int ensures InFree(h.free, u) <==> InFree(whole, u) {
      assert !InLive(h.live, u);
      assert Covers(whole[0], u) <==> 0 <= u < h.units;
      assert InFree(whole, u) <==> Covers(whole[0], u);
    }
    ApartIsCanonical(h.free, whole);
  }

  // ---------------------------------------------------------------- malloc

  /** The header plus the payload, in units: the payload holds mem bytes with less than a
      unit to spare. */
  function Blocks(mem: nat): (b: nat)
    ensures b >= 1 && 16 * (b - 2) < mem <= 16 * (b - 1)
  {
    (mem + 15) / 16 + 1
  }

  /** Position d steps after i on a ring of n nodes. */
  function Rot(i: nat, d: nat, n: nat): (r: nat)
    requires i < n && d <= n
    ensures r < n
  {
    if i + d < n then i + d else i + d - n
  }

  function Prev(j: nat, n: nat): (r: nat)
    requires j < n
    ensures r < n
  {
    if j == 0 then n - 1 else j - 1
  }

  /** Next fit: the first node after the rover, in ring order and with the rover itself
      last, that is large enough. */
  function NextFit(free: seq<Extent>, rover: nat, blocks: nat, d: nat): (r: Option<nat>)
    requires rover < |free| && 1 <= d <= |free| + 1
    ensures r.Some? ==> r.value < |free| && free[r.value].size >= blocks
    decreases |free| + 1 - d
  {
    if d == |free| + 1 then None
    else if free[Rot(rover, d, |free|)].size >= blocks then Some(Rot(rover, d, |free|))
    else NextFit(free, rover, blocks, d + 1)
  }

  predicate NoneFits(free: seq<Extent>, rover: nat, blocks: nat, d: nat, e: nat)
    requires rover < |free| && e <= |free| + 1
  {
    forall i :: d <= i < e ==> free[Rot(rover, i, |free|)].size < blocks
  }

  /** The node found is the nearest one that fits, and NULL means that none fits. */
  lemma {:induction false} NextFitIsNearest(free: seq<Extent>, rover: nat, blocks: nat, d: nat) returns (e: nat)
    requires rover < |free| && 1 <= d <= |free| + 1
    ensures d <= e <= |free| + 1 && NoneFits(free, rover, blocks, d, e)
    ensures e <= |free| ==> NextFit(free, rover, blocks, d) == Some(Rot(rover, e, |free|))
    ensures e == |free| + 1 ==> NextFit(free, rover, blocks, d) == None
    decreases |free| + 1 - d
  {
    if d == |free| + 1 || free[Rot(rover, d, |free|)].size >= blocks {
      e := d;
    } else {
      e := NextFitIsNearest(free, rover, blocks, d + 1);
    }
  }

  lemma NoneFitsAnywhere(free: seq<Extent>, rover: nat, blocks: nat)
    requires rover < |free| && NoneFits(free, rover, blocks, 1, |free| + 1)
    ensures forall j :: 0 <= j < |free| ==> free[j].size < blocks
  {
    forall j | 0 <= j < |free| ensures free[j].size < blocks {
      var d := if j > rover then j - rover else j + |free| - rover;
      assert Rot(rover, d, |free|) == j;
    }
  }

  /** Take blocks units from the end of extent j; the rover moves to the node before it. */
  function Allocate(h: Heap, j: nat, blocks: nat): Heap
    requires j < |h.free| && h.free[j].size >= blocks && h.rover < |h.free|
  {
    var e := h.free[j];
    var a := e.at + e.size - blocks;
    if e.size == blocks then
      var free := h.free[..j] + h.free[j + 1..];
      var rover := if j > 0 then j - 1 else if |free| == 0 then 0 else |free| - 1;
      h.(free := free, rover := rover, live := h.live[a := blocks])
    else
      h.(free := h.free[j := Extent(e.at, e.size - blocks)], rover := Prev(j, |h.free|), live := h.live[a := blocks])
  }

  /** The only free node is consumed whole. */
  predicate Exhausts(h: Heap, blocks: nat) {
    |h.free| == 1 && h.free[0].size == blocks
  }

  function Malloc(h: Heap, mem: nat): (Heap, Option<nat>)
    requires h.rover < |h.free|
  {
    if mem == 0 then (h, None)
    else
      var fit := NextFit(h.free, h.rover, Blocks(mem), 1);
      if fit.None? then (h, None)
      else
        var e := h.free[fit.value];
        (Allocate(h, fit.value, Blocks(mem)), Some(e.at + e.size - Blocks(mem)))
  }

  lemma InFreeConcat(f: seq<Extent>, g: seq<Extent>, u: int)
    ensures InFree(f + g, u) <==> InFree(f, u) || InFree(g, u)
  {
    if InFree(f, u) {
      var i :| 0 <= i < |f| && Covers(f[i], u);
      assert Covers((f + g)[i], u);
    }
    if InFree(g, u) {
      var i :| 0 <= i < |g| && Covers(g[i], u);
      assert Covers((f + g)[|f| + i], u);
    }
  }

  lemma InFreeThree(f: seq<Extent>, m: seq<Extent>, g: seq<Extent>)
    ensures forall u: int :: InFree(f + m + g, u) <==> InFree(f, u) || InFree(m, u) || InFree(g, u)
    ensures SumFree(f + m + g) == SumFree(f) + SumFree(m) + SumFree(g)
  {
    forall u: int ensures InFree(f + m + g, u) <==> InFree(f, u) || InFree(m, u) || InFree(g, u) {
      InFreeConcat(f + m, g, u);
      InFreeConcat(f, m, u);
    }
    SumFreeConcat(f + m, g);
    SumFreeConcat(f, m);
  }

  lemma InFreeOne(e: Extent)
    ensures forall u: int :: InFree([e], u) <==> Covers(e, u)
    ensures SumFree([e]) == e.size && SumFree([]) == 0
    ensures forall u: int :: !InFree([], u)
  {
    forall u: int ensures InFree([e], u) <==> Covers(e, u) {
      if Covers(e, u) { assert Covers([e][0], u); }
    }
  }

  /** The other extents do not reach into extent j. */
  lemma OthersOutside(f: seq<Extent>, j: nat, u: int)
    requires Apart(f) && j < |f| && Covers(f[j], u)
    ensures !InFree(f[..j], u) && !InFree(f[j + 1..], u)
  {
    forall i | 0 <= i < j ensures !Covers(f[..j][i], u) {}
    var g := f[j + 1..];
    forall i | 0 <= i < |g| ensures !Covers(g[i], u) { assert g[i] == f[i + j + 1]; }
  }

  lemma AllocateFree(h: Heap, j: nat, blocks: nat)
    requires Inv(h) && j < |h.free| && 0 < blocks <= h.free[j].size
    ensures forall u: int :: InFree(Allocate(h, j, blocks).free, u) <==>
              InFree(h.free, u) && !Covers(Extent(h.free[j].at + h.free[j].size - blocks, blocks), u)
    ensures SumFree(Allocate(h, j, blocks).free) + blocks == SumFree(h.free)
  {
    hide Apart, LiveApart, Partition, InFree, SumFree, SumLive, Covers;
    var e := h.free[j];
    var e' := Extent(e.at, e.size - blocks);
    var rest := if e.size == blocks then [] else [e'];
    assert Allocate(h, j, blocks).free == h.free[..j] + rest + h.free[j + 1..];
    InFreeOne(e');
    CutCovers(e, blocks);
    ReplaceFree(h.free, j, rest, Extent(e.at + e.size - blocks, blocks));
  }

  lemma CutCovers(e: Extent, blocks: nat)
    requires blocks <= e.size
    ensures forall u: int :: Covers(Extent(e.at, e.size - blocks), u) <==>
            Covers(e, u) && !Covers(Extent(e.at + e.size - blocks, blocks), u)
    ensures forall u: int :: Covers(Extent(e.at + e.size - blocks, blocks), u) ==> Covers(e, u)
    ensures blocks == e.size ==> Extent(e.at + e.size - blocks, blocks) == e
  {}

  /** Extent j gives way to extents that cover all of it but the part cut off. */
  lemma ReplaceFree(f: seq<Extent>, j: nat, rest: seq<Extent>, cut: Extent)
    requires Apart(f) && j < |f| && SumFree(rest) + cut.size == f[j].size
    requires forall u: int :: InFree(rest, u) <==> Covers(f[j], u) && !Covers(cut, u)
    requires forall u: int :: Covers(cut, u) ==> Covers(f[j], u)
    ensures forall u: int :: InFree(f[..j] + rest + f[j + 1..], u) <==> InFree(f, u) && !Covers(cut, u)
    ensures SumFree(f[..j] + rest + f[j + 1..]) + cut.size == SumFree(f)
  {
    hide Apart, InFree, SumFree, Covers;
    assert f == f[..j] + [f[j]] + f[j + 1..];
    InFreeThree(f[..j], [f[j]], f[j + 1..]);
    InFreeThree(f[..j], rest, f[j + 1..]);
    InFreeOne(f[j]);
    forall u: int | Covers(f[j], u) ensures !InFree(f[..j], u) && !InFree(f[j + 1..], u) {
      OthersOutside(f, j, u);
    }
  }

  lemma AllocateApart(h: Heap, j: nat, blocks: nat)
    requires Apart(h.free) && h.rover < |h.free| && j < |h.free| && 0 < blocks <= h.free[j].size
    ensures Apart(Allocate(h, j, blocks).free)
  {
    var f, g := h.free, Allocate(h, j, blocks).free;
    if f[j].size == blocks {
      forall i | 0 <= i < |g| ensures g[i] == f[if i < j then i else i + 1] {}
    }
  }

  lemma AllocateLive(h: Heap, j: nat, blocks: nat)
    requires Inv(h) && j < |h.free| && 0 < blocks <= h.free[j].size
    ensures var a := h.free[j].at + h.free[j].size - blocks;
      var live := Allocate(h, j, blocks).live;
      && a !in h.live && LiveApart(live) && SumLive(live) == SumLive(h.live) + blocks
      && forall u: int :: InLive(live, u) <==> InLive(h.live, u) || Covers(Extent(a, blocks), u)
  {
    hide InFree, InLive, LiveApart, SumFree, SumLive, Apart;
    var a := h.free[j].at + h.free[j].size - blocks;
    forall u: int | Covers(Extent(a, blocks), u) ensures !InLive(h.live, u) { CutWasFree(h, j, blocks, u); }
    assert Covers(Extent(a, blocks), a);
    LiveWith(h.live, a, blocks);
  }

  lemma CutWasFree(h: Heap, j: nat, blocks: nat, u: int)
    requires Inv(h) && j < |h.free| && 0 < blocks <= h.free[j].size
    requires Covers(Extent(h.free[j].at + h.free[j].size - blocks, blocks), u)
    ensures InFree(h.free, u) && !InLive(h.live, u) && 0 <= u < h.units
  {
    hide InLive, LiveApart, SumFree, SumLive, Apart;
    assert Covers(h.free[j], u);
  }

  /** A block on units that were not live. */
  lemma LiveWith(live: map<nat, nat>, a: nat, blocks: nat)
    requires LiveApart(live) && blocks > 0
    requires forall u: int :: Covers(Extent(a, blocks), u) ==> !InLive(live, u)
    ensures a !in live
    ensures LiveApart(live[a := blocks]) && SumLive(live[a := blocks]) == SumLive(live) + blocks
    ensures forall u: int :: InLive(live[a := blocks], u) <==> InLive(live, u) || Covers(Extent(a, blocks), u)
  {
    hide SumLive;
    assert Covers(Extent(a, blocks), a);
    assert a in live ==> Covers(Extent(a, live[a]), a);
    SumLiveWith(live, a, blocks);
    var live' := live[a := blocks];
    forall u: int ensures InLive(live', u) <==> InLive(live, u) || Covers(Extent(a, blocks), u) {
      if InLive(live, u) {
        var b :| b in live && Covers(Extent(b, live[b]), u);
        assert b in live' && live'[b] == live[b];
      }
      if Covers(Extent(a, blocks), u) { assert a in live' && live'[a] == blocks; }
    }
  }

  /** malloc keeps the invariant unless it consumes the only free node whole. */
  lemma AllocateKeepsInv(h: Heap, j: nat, blocks: nat)
    requires Inv(h) && j < |h.free| && 0 < blocks <= h.free[j].size && !Exhausts(h, blocks)
    ensures Inv(Allocate(h, j, blocks))
  {
    hide InFree, InLive, LiveApart, SumFree, SumLive, Apart, Covers;
    AllocateApart(h, j, blocks);
    AllocateFree(h, j, blocks);
    AllocateLive(h, j, blocks);
    var a := h.free[j].at + h.free[j].size - blocks;
    forall u: int | Covers(Extent(a, blocks), u) ensures InFree(h.free, u) { CutWasFree(h, j, blocks, u); }
    var h' := Allocate(h, j, blocks);
    forall u: int ensures (InFree(h'.free, u) || InLive(h'.live, u) <==> 0 <= u < h'.units)
        && !(InFree(h'.free, u) && InLive(h'.live, u)) {}
  }

  // ---------------------------------------------------------------- free

  /** How many extents start below a. */
  function Pos(free: seq<Extent>, a: nat): (p: nat)
    ensures p <= |free|
  {
    if free == [] || free[0].at >= a then 0 else 1 + Pos(free[1..], a)
  }

  lemma {:induction false} PosSpec(free: seq<Extent>, a: nat)
    requires Apart(free)
    ensures forall i :: 0 <= i < |free| ==> (i < Pos(free, a) <==> free[i].at < a)
  {
    if free == [] {
    } else if free[0].at < a {
      PosSpec(free[1..], a);
      forall i | 0 <= i < |free| ensures i < Pos(free, a) <==> free[i].at < a {
        if i > 0 { assert free[i] == free[1..][i - 1]; }
      }
    }
  }

  /** The extent below position p ends where e starts. */
  predicate Lower(f: seq<Extent>, p: nat, e: Extent)
    requires p <= |f|
  {
    p > 0 && f[p - 1].at + f[p - 1].size == e.at
  }

  /** The extent at position p starts where e ends. */
  predicate Upper(f: seq<Extent>, p: nat, e: Extent)
    requires p <= |f|
  {
    p < |f| && e.at + e.size == f[p].at
  }

  function Low(f: seq<Extent>, p: nat, e: Extent): (r: nat)
    requires p <= |f|
    ensures r <= p
  {
    if Lower(f, p, e) then p - 1 else p
  }

  function High(f: seq<Extent>, p: nat, e: Extent): (r: nat)
    requires p <= |f|
    ensures p <= r <= |f|
  {
    if Upper(f, p, e) then p + 1 else p
  }

  /** e joined with the neighbours it touches. */
  function Joined(f: seq<Extent>, p: nat, e: Extent): Extent
    requires p <= |f|
  {
    Extent(if Lower(f, p, e) then f[p - 1].at else e.at,
           (if Lower(f, p, e) then f[p - 1].size else 0) + e.size + (if Upper(f, p, e) then f[p].size else 0))
  }

  /** The free list with extent e put in its place and joined to the neighbours it touches. */
  function Insert(f: seq<Extent>, e: Extent): seq<Extent> {
    var p := Pos(f, e.at);
    f[..Low(f, p, e)] + [Joined(f, p, e)] + f[High(f, p, e)..]
  }

  function Free(h: Heap, a: nat): Heap
    requires a in h.live && h.rover < |h.free|
  {
    var e := Extent(a, h.live[a]);
    var free := Insert(h.free, e);
    var p := Pos(h.free, a);
    h.(free := free, rover := if p > 0 then p - 1 else |free| - 1, live := h.live - {a})
  }

  /** The block just below the only free node is freed. */
  predicate MergesUnderOnly(h: Heap, a: nat)
    requires a in h.live
  {
    |h.free| == 1 && a + h.live[a] == h.free[0].at
  }

  /** A live block overlaps no free extent, and lies wholly on one side of it. */
  lemma LiveOutsideFree(h: Heap, a: nat, i: nat)
    requires Inv(h) && a in h.live && i < |h.free|
    ensures h.free[i].at + h.free[i].size <= a || a + h.live[a] <= h.free[i].at
    ensures a + h.live[a] <= h.units && h.free[i].at + h.free[i].size <= h.units
  {
    var e, b := h.free[i], Extent(a, h.live[a]);
    forall u: int ensures !(Covers(e, u) && Covers(b, u)) {
      assert Covers(e, u) ==> InFree(h.free, u);
      assert Covers(b, u) ==> InLive(h.live, u);
    }
    assert !(Covers(e, e.at) && Covers(b, e.at));
    assert !(Covers(e, a) && Covers(b, a));
    assert Covers(b, a + h.live[a] - 1) && InLive(h.live, a + h.live[a] - 1);
    assert Covers(e, e.at + e.size - 1) && InFree(h.free, e.at + e.size - 1);
  }

  /** The free list around a live block: p extents below it, the others above. */
  ghost predicate Gap(f: seq<Extent>, p: nat, e: Extent) {
    && Apart(f) && f != [] && p <= |f| && e.size > 0
    && (forall i :: 0 <= i < |f| ==> if i < p then f[i].at + f[i].size <= e.at else e.at + e.size <= f[i].at)
  }

  lemma Neighbours(h: Heap, a: nat)
    requires Inv(h) && a in h.live
    ensures Gap(h.free, Pos(h.free, a), Extent(a, h.live[a]))
  {
    PosSpec(h.free, a);
    forall i | 0 <= i < |h.free|
      ensures if i < Pos(h.free, a) then h.free[i].at + h.free[i].size <= a else a + h.live[a] <= h.free[i].at
    {
      LiveOutsideFree(h, a, i);
    }
  }

  /** The joined extent covers what it replaces and the block, and nothing else touches it. */
  lemma JoinedExtent(f: seq<Extent>, p: nat, e: Extent)
    requires Gap(f, p, e)
    ensures var m, mid := Joined(f, p, e), f[Low(f, p, e)..High(f, p, e)];
      && m.size > 0 && m.size == SumFree(mid) + e.size
      && (forall u: int :: Covers(m, u) <==> InFree(mid, u) || Covers(e, u))
      && (forall i :: 0 <= i < Low(f, p, e) ==> f[i].at + f[i].size < m.at)
      && (forall i :: High(f, p, e) <= i < |f| ==> m.at + m.size < f[i].at)
  {
    var mid := f[Low(f, p, e)..High(f, p, e)];
    InFreeOne(e);
    if Lower(f, p, e) { InFreeOne(f[p - 1]); }
    if Upper(f, p, e) { InFreeOne(f[p]); }
    if Lower(f, p, e) && Upper(f, p, e) {
      assert mid == [f[p - 1]] + [] + [f[p]];
      InFreeThree([f[p - 1]], [], [f[p]]);
    } else if Lower(f, p, e) {
      assert mid == [f[p - 1]];
    } else if Upper(f, p, e) {
      assert mid == [f[p]];
    } else {
      assert mid == [];
    }
  }

  lemma SpliceApart(f: seq<Extent>, lo: nat, m: Extent, hi: nat)
    requires Apart(f) && lo <= hi <= |f| && m.size > 0
    requires forall i :: 0 <= i < lo ==> f[i].at + f[i].size < m.at
    requires forall i :: hi <= i < |f| ==> m.at + m.size < f[i].at
    ensures Apart(f[..lo] + [m] + f[hi..])
  {
    var g := f[..lo] + [m] + f[hi..];
    var shift := hi - lo - 1;
    assert |g| == |f| - shift;
    forall i | 0 <= i < |g| ensures g[i].size > 0 {
      assert g[i] == if i < lo then f[i] else if i == lo then m else f[i + shift];
    }
    forall i, j | 0 <= i < j < |g| ensures g[i].at + g[i].size < g[j].at {
      assert g[i] == if i < lo then f[i] else if i == lo then m else f[i + shift];
      assert g[j] == if j < lo then f[j] else if j == lo then m else f[j + shift];
    }
  }

  lemma InsertSpec(h: Heap, a: nat)
    requires Inv(h) && a in h.live
    ensures var g := Insert(h.free, Extent(a, h.live[a]));
      && Apart(g) && |g| > 0 && SumFree(g) == SumFree(h.free) + h.live[a]
      && forall u: int :: InFree(g, u) <==> InFree(h.free, u) || Covers(Extent(a, h.live[a]), u)
  {
    Neighbours(h, a);
    GapFilled(h.free, Pos(h.free, a), Extent(a, h.live[a]));
  }

  lemma GapParts(f: seq<Extent>, p: nat, e: Extent)
    requires Gap(f, p, e)
    ensures Apart(f) && Low(f, p, e) <= High(f, p, e) <= |f|
  {}

  lemma GapFilled(f: seq<Extent>, p: nat, e: Extent)
    requires Gap(f, p, e)
    ensures var g := f[..Low(f, p, e)] + [Joined(f, p, e)] + f[High(f, p, e)..];
      && Apart(g) && SumFree(g) == SumFree(f) + e.size
      && forall u: int :: InFree(g, u) <==> InFree(f, u) || Covers(e, u)
  {
    hide Apart, Gap, Low, High, Joined, InFree, SumFree, Covers;
    GapParts(f, p, e);
    JoinedExtent(f, p, e);
    var m, lo, hi := Joined(f, p, e), Low(f, p, e), High(f, p, e);
    SpliceApart(f, lo, m, hi);
    InFreeThree(f[..lo], [m], f[hi..]);
    InFreeThree(f[..lo], f[lo..hi], f[hi..]);
    InFreeOne(m);
    assert f == f[..lo] + f[lo..hi] + f[hi..];
  }

  lemma FreeKeepsInv(h: Heap, a: nat)
    requires Inv(h) && a in h.live
    ensures Inv(Free(h, a))
    ensures forall u: int :: InFree(Free(h, a).free, u) <==> InFree(h.free, u) || Covers(Extent(a, h.live[a]), u)
  {
    InsertSpec(h, a);
    SumLiveWithout(h.live, a);
    var h' := Free(h, a);
    var e := Extent(a, h.live[a]);
    forall u: int ensures InLive(h'.live, u) <==> InLive(h.live, u) && !Covers(e, u) {
      if InLive(h'.live, u) {
        var b :| b in h'.live && Covers(Extent(b, h'.live[b]), u);
        assert b in h.live && h.live[b] == h'.live[b];
      }
      if InLive(h.live, u) && !Covers(e, u) {
        var b :| b in h.live && Covers(Extent(b, h.live[b]), u);
        assert b in h'.live && h'.live[b] == h.live[b];
      }
    }
    assert forall u: int :: Covers(e, u) ==> InLive(h.live, u);
  }

  // ---------------------------------------------------------------- round trip and runs

  /** malloc fails only when no free extent is large enough. */
  lemma MallocComplete(h: Heap, mem: nat)
    requires h.rover < |h.free|
    ensures Malloc(h, mem).1 == None <==> mem == 0 || forall i :: 0 <= i < |h.free| ==> h.free[i].size < Blocks(mem)
  {
    var e := NextFitIsNearest(h.free, h.rover, Blocks(mem), 1);
    if e == |h.free| + 1 { NoneFitsAnywhere(h.free, h.rover, Blocks(mem)); }
  }

  lemma MallocKeepsInv(h: Heap, mem: nat)
    requires Inv(h) && (mem == 0 || !Exhausts(h, Blocks(mem)))
    ensures Inv(Malloc(h, mem).0)
    ensures Malloc(h, mem).1.Some? ==>
              && Malloc(h, mem).1.value !in h.live
              && Malloc(h, mem).0.live == h.live[Malloc(h, mem).1.value := Blocks(mem)]
              && forall u: int :: Covers(Extent(Malloc(h, mem).1.value, Blocks(mem)), u) ==> InFree(h.free, u)
  {
    hide Apart, Partition, LiveApart, InLive, InFree, SumFree, SumLive, Covers;
    if Malloc(h, mem).1.Some? {
      var blocks := Blocks(mem);
      var j := NextFit(h.free, h.rover, blocks, 1).value;
      AllocateKeepsInv(h, j, blocks);
      AllocateLive(h, j, blocks);
      forall u: int | Covers(Extent(Malloc(h, mem).1.value, blocks), u) ensures InFree(h.free, u) {
        CutWasFree(h, j, blocks, u);
      }
    }
  }

  /** Freeing the block just allocated gives back the same free extents and live blocks. */
  lemma RoundTrip(h: Heap, mem: nat)
    requires Inv(h) && !Exhausts(h, Blocks(mem)) && Malloc(h, mem).1.Some?
    ensures var m := Malloc(h, mem);
      && m.1.value in m.0.live && m.0.rover < |m.0.free|
      && Free(m.0, m.1.value).free == h.free && Free(m.0, m.1.value).live == h.live
  {
    hide Insert, NextFit, Partition, LiveApart, InLive, InFree, Apart, SumFree, SumLive, Blocks;
    MallocKeepsInv(h, mem);
    var m, a, blocks := Malloc(h, mem).0, Malloc(h, mem).1.value, Blocks(mem);
    var j := NextFit(h.free, h.rover, blocks, 1).value;
    AllocateFree(h, j, blocks);
    FreeKeepsInv(m, a);
    var after := Free(m, a);
    SameCover(after.free, m.free, h.free, Extent(a, blocks));
    ApartIsCanonical(after.free, h.free);
    assert after.live == h.live;
  }

  lemma SameCover(after: seq<Extent>, middle: seq<Extent>, before: seq<Extent>, e: Extent)
    requires forall u: int :: InFree(after, u) <==> InFree(middle, u) || Covers(e, u)
    requires forall u: int :: InFree(middle, u) <==> InFree(before, u) && !Covers(e, u)
    requires forall u: int :: Covers(e, u) ==> InFree(before, u)
    ensures forall u: int :: InFree(after, u) <==> InFree(before, u)
  {}

  /** It also never runs into the second case that the source gets wrong. */
  lemma RoundTripIsSafe(h: Heap, mem: nat)
    requires Inv(h) && !Exhausts(h, Blocks(mem)) && Malloc(h, mem).1.Some?
    ensures Malloc(h, mem).1.value in Malloc(h, mem).0.live
            && !MergesUnderOnly(Malloc(h, mem).0, Malloc(h, mem).1.value)
  {
    MallocKeepsInv(h, mem);
    var m, a := Malloc(h, mem).0, Malloc(h, mem).1.value;
    var j := NextFit(h.free, h.rover, Blocks(mem), 1).value;
    if MergesUnderOnly(m, a) {
      assert false;
    }
  }

  // ---------------------------------------------------------------- where the next search starts

  /** After a block has been cut off a node the next search starts with what is left of that
      node: if it is large enough the next block lies directly below the first. */
  lemma NextBlockIsBelow(h: Heap, mem: nat, mem': nat)
    requires Inv(h) && Malloc(h, mem).1.Some? && mem' > 0
    requires var j := NextFit(h.free, h.rover, Blocks(mem), 1).value;
      h.free[j].size > Blocks(mem) && h.free[j].size - Blocks(mem) >= Blocks(mem')
    ensures Malloc(h, mem).0.rover < |Malloc(h, mem).0.free|
    ensures Malloc(Malloc(h, mem).0, mem').1 == Some(Malloc(h, mem).1.value - Blocks(mem'))
  {
    hide Blocks, Partition, LiveApart, SumFree, SumLive, Apart;
    var m, j := Malloc(h, mem).0, NextFit(h.free, h.rover, Blocks(mem), 1).value;
    NextAfterPrev(j, |h.free|);
    assert Rot(m.rover, 1, |m.free|) == j;
    assert NextFit(m.free, m.rover, Blocks(mem'), 1) == Some(j);
  }

  /** After a node has been taken whole the next search starts with the node that followed it. */
  lemma NextAfterWhole(h: Heap, mem: nat)
    requires Inv(h) && Malloc(h, mem).1.Some? && !Exhausts(h, Blocks(mem))
    requires h.free[NextFit(h.free, h.rover, Blocks(mem), 1).value].size == Blocks(mem)
    ensures var m, j, n := Malloc(h, mem).0, NextFit(h.free, h.rover, Blocks(mem), 1).value, |h.free|;
      m.rover < |m.free| && m.free[Rot(m.rover, 1, |m.free|)] == h.free[if j + 1 < n then j + 1 else 0]
  {
    hide Blocks, Partition, LiveApart, SumFree, SumLive, Apart;
  }

  /** After a free that joins the block to the node below it that node is searched last. */
  lemma JoinedIsLast(h: Heap, a: nat)
    requires Inv(h) && a in h.live && Lower(h.free, Pos(h.free, a), Extent(a, h.live[a]))
    ensures var m := Free(h, a);
      m.rover < |m.free| && Covers(m.free[Rot(m.rover, |m.free|, |m.free|)], a)
  {
    hide Apart, Pos, Gap, Partition, LiveApart, SumFree, SumLive;
    Positive(h, a);
    var f, e := h.free, Extent(a, h.live[a]);
    var p, m := Pos(f, a), Free(h, a);
    assert Low(f, p, e) == p - 1 && m.free[p - 1] == Joined(f, p, e);
  }

  lemma Positive(h: Heap, a: nat)
    requires Inv(h) && a in h.live
    ensures h.live[a] > 0
  {}

  lemma NextAfterPrev(j: nat, n: nat)
    requires j < n
    ensures Rot(Prev(j, n), 1, n) == j
  {}

  /** After a free that joins the block to no node below it the next search starts with the node
      that the block has become: if it is large enough the next block comes from its end. */
  lemma FreedIsNext(h: Heap, a: nat, mem: nat)
    requires Inv(h) && a in h.live && mem > 0 && !Lower(h.free, Pos(h.free, a), Extent(a, h.live[a]))
    requires Joined(h.free, Pos(h.free, a), Extent(a, h.live[a])).size >= Blocks(mem)
    ensures Free(h, a).rover < |Free(h, a).free|
    ensures var e := Joined(h.free, Pos(h.free, a), Extent(a, h.live[a]));
      e.at == a && Malloc(Free(h, a), mem).1 == Some(a + e.size - Blocks(mem))
  {
    hide Blocks, Apart, Inv, Pos, Gap, Lower, Upper;
    InvRover(h);
    FreeKeepsInv(h, a);
    InvRover(Free(h, a));
    var f, e := h.free, Extent(a, h.live[a]);
    var p, m := Pos(f, a), Free(h, a);
    assert Low(f, p, e) == p && m.free[p] == Joined(f, p, e);
    assert Rot(m.rover, 1, |m.free|) == p;
    assert NextFit(m.free, m.rover, Blocks(mem), 1) == Some(p);
  }

  lemma InvRover(h: Heap)
    requires Inv(h)
    ensures h.rover < |h.free|
  {}

  function Initial(units: nat): Heap { Heap(units, [Extent(0, units)], 0, map[]) }

  lemma InitialInv(units: nat)
    requires units > 0
    ensures Inv(Initial(units))
  {
    InFreeOne(Extent(0, units));
  }

  datatype Op = MallocOp(mem: nat) | FreeOp(a: nat)

  /** The two cases in which the source's list breaks are excluded by conditions that the
      caller can check beforehand. */
  predicate Legal(h: Heap, op: Op) {
    match op
    case MallocOp(mem) => mem == 0 || !Exhausts(h, Blocks(mem))
    case FreeOp(a) => a in h.live && !MergesUnderOnly(h, a)
  }

  function Apply(h: Heap, op: Op): Heap
    requires h.rover < |h.free| && Legal(h, op)
  {
    match op
    case MallocOp(mem) => Malloc(h, mem).0
    case FreeOp(a) => Free(h, a)
  }

  ghost predicate Next(h: Heap, op: Op, h': Heap) {
    h.rover < |h.free| ==> Legal(h, op) && h' == Apply(h, op)
  }

  ghost predicate IsRun(states: seq<Heap>, ops: seq<Op>) {
    && |states| == |ops| + 1
    && states[0].units > 0 && states[0] == Initial(states[0].units)
    && forall i :: 0 <= i < |ops| ==> Next(states[i], ops[i], states[i + 1])
  }

  lemma {:induction false} RunKeepsInv(states: seq<Heap>, ops: seq<Op>, i: nat)
    requires IsRun(states, ops) && i <= |ops|
    ensures Inv(states[i]) && states[i].units == states[0].units
    decreases i
  {
    if i == 0 {
      InitialInv(states[0].units);
    } else {
      RunKeepsInv(states, ops, i - 1);
      var h := states[i - 1];
      assert Next(h, ops[i - 1], states[i - 1 + 1]);
      match ops[i - 1]
      case MallocOp(mem) => MallocKeepsInv(h, mem);
      case FreeOp(a) => FreeKeepsInv(h, a);
    }
  }

  /** Along every run: the free list is address-ordered without touching extents, blocks do
      not overlap, and free units plus live units are the whole heap; once nothing is live,
      in whatever order the blocks were freed, the list is one node that spans the heap. */
  lemma ReachableHeaps(states: seq<Heap>, ops: seq<Op>, i: nat)
    requires IsRun(states, ops) && i <= |ops|
    ensures Apart(states[i].free) && LiveApart(states[i].live) && Partition(states[i])
    ensures SumFree(states[i].free) + SumLive(states[i].live) == states[i].units
    ensures states[i].live == map[] ==> states[i].free == states[0].free
  {
    RunKeepsInv(states, ops, i);
    if states[i].live == map[] { NothingLive(states[i]); }
  }

  /** Runs do reach the two cases. On every heap of two units or more the very first malloc
      may ask for all of it ... */
  lemma ExhaustsIsReached(units: nat)
    requires units >= 2
    ensures IsRun([Initial(units)], []) && Exhausts(Initial(units), Blocks(16 * (units - 1)))
  {}

  /** ... and on every heap of nine units or more four calls leave a live block just below
      the only free node: two blocks from the end, the last one freed, and all that is left
      at the start taken. */
  lemma MergesUnderOnlyIsReached(units: nat) returns (states: seq<Heap>, ops: seq<Op>)
    requires units >= 9
    ensures IsRun(states, ops) && |ops| == 4
    ensures var h := states[4]; units - 6 in h.live && MergesUnderOnly(h, units - 6)
  {
    hide Malloc, Free;
    var h0 := Initial(units);
    var h1 := Heap(units, [Extent(0, units - 2)], 0, map[units - 2 := 2]);
    var h2 := Heap(units, [Extent(0, units - 6)], 0, map[units - 2 := 2, units - 6 := 4]);
    var h3 := Heap(units, [Extent(0, units - 6), Extent(units - 2, 2)], 0, map[units - 6 := 4]);
    var h4 := Heap(units, [Extent(units - 2, 2)], 0, map[units - 6 := 4, 0 := units - 6]);
    ops := [MallocOp(16), MallocOp(48), FreeOp(units - 2), MallocOp(16 * (units - 7))];
    states := [h0, h1, h2, h3, h4];
    CutsOnlyNode(h0, units, 2);
    CutsOnlyNode(h1, units - 2, 4);
    FreesLast(units, h2, h3);
    TakesFirst(units, h3, h4);
  }

  lemma CutsOnlyNode(h: Heap, n: nat, blocks: nat)
    requires h.free == [Extent(0, n)] && h.rover == 0 && 2 <= blocks < n
    ensures Malloc(h, 16 * (blocks - 1)).0 == Heap(h.units, [Extent(0, n - blocks)], 0, h.live[n - blocks := blocks])
    ensures !Exhausts(h, Blocks(16 * (blocks - 1)))
  {
    assert h.free[0 := Extent(0, n - blocks)] == [Extent(0, n - blocks)];
  }

  lemma FreesLast(units: nat, h: Heap, h': Heap)
    requires units >= 9 && h == Heap(units, [Extent(0, units - 6)], 0, map[units - 2 := 2, units - 6 := 4])
    requires h' == Heap(units, [Extent(0, units - 6), Extent(units - 2, 2)], 0, map[units - 6 := 4])
    ensures Free(h, units - 2) == h' && !MergesUnderOnly(h, units - 2)
  {
    assert Pos(h.free, units - 2) == 1 + Pos(h.free[1..], units - 2);
    assert h.live - {units - 2} == h'.live;
  }

  lemma TakesFirst(units: nat, h: Heap, h': Heap)
    requires units >= 9 && h == Heap(units, [Extent(0, units - 6), Extent(units - 2, 2)], 0, map[units - 6 := 4])
    requires h' == Heap(units, [Extent(units - 2, 2)], 0, map[units - 6 := 4, 0 := units - 6])
    ensures Malloc(h, 16 * (units - 7)).0 == h'
  {
    assert NextFit(h.free, 0, units - 6, 1) == NextFit(h.free, 0, units - 6, 2) == Some(0);
    assert h'.free == h.free[..0] + h.free[1..];
  }

  /** While the node at the start of the heap is free, no free can break the list, and
      only a malloc that takes exactly that node can unlist it. */
  predicate BaseListed(h: Heap) { h.free != [] && h.free[0].at == 0 }

  lemma BaseListedIsSafe(h: Heap, op: Op)
    requires Inv(h) && BaseListed(h)
    ensures op.FreeOp? && op.a in h.live ==> Legal(h, op) && BaseListed(Free(h, op.a))
    ensures op.MallocOp? && Legal(h, op) ==>
              (BaseListed(Apply(h, op)) <==>
               !(op.mem != 0 && NextFit(h.free, h.rover, Blocks(op.mem), 1) == Some(0)
                   && h.free[0].size == Blocks(op.mem)))
  {
    match op
    case MallocOp(mem) =>
      if mem != 0 {
        var fit := NextFit(h.free, h.rover, Blocks(mem), 1);
        if fit.Some? && h.free[fit.value].size == Blocks(mem) {
          var g := Malloc(h, mem).0.free;
          assert g == h.free[..fit.value] + h.free[fit.value + 1..];
          if fit.value == 0 { assert g != [] ==> g[0] == h.free[1]; } else { assert g[0] == h.free[0]; }
        }
      }
    case FreeOp(a) =>
      if a in h.live {
        LiveOutsideFree(h, a, 0);
        PosSpec(h.free, a);
        assert Pos(h.free, a) > 0;
      }
  }
}

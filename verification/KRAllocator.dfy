/** The K&R allocator as it runs (Kernel/memory_manager/memoryManager.c): a circular list
    of headers inside the heap, walked and edited in place. Addresses count headers from
    base; a byte pointer is 16 times that, relative to base. */
module KRAllocator {
  import opened Wrappers
  import opened KRModel

  datatype Header = Header(next: int, size: int)

  type Memory = map<int, Header>

  const HEADER_BYTES := 16
  const TWO_TO_THE_64 := 0x1_0000_0000_0000_0000

  /** The address of the node after node i. */
  function Succ(free: seq<Extent>, i: nat): nat
    requires i < |free|
  {
    if i + 1 < |free| then free[i + 1].at else free[0].at
  }

  ghost predicate ListedAt(m: Memory, free: seq<Extent>, i: nat)
    requires i < |free|
  {
    free[i].at in m && m[free[i].at] == Header(Succ(free, i), free[i].size)
  }

  ghost predicate Listed(m: Memory, free: seq<Extent>) {
    forall i :: 0 <= i < |free| ==> ListedAt(m, free, i)
  }

  ghost predicate LiveSizes(m: Memory, live: map<nat, nat>) {
    forall a :: a in live ==> a in m && m[a].size == live[a]
  }

  /** Memory represents h: the next fields run once around the free extents in address
      order, and every header holds its block's size. */
  ghost predicate Rep(m: Memory, freeNode: int, h: Heap) {
    && h.rover < |h.free|
    && (forall u: int :: 0 <= u < h.units ==> u in m)
    && Listed(m, h.free)
    && LiveSizes(m, h.live)
    && freeNode == h.free[h.rover].at
  }

  ghost predicate ApartFromLive(free: seq<Extent>, live: map<nat, nat>, units: nat) {
    && Apart(free)
    && (forall i :: 0 <= i < |free| ==> free[i].at + free[i].size <= units)
    && (forall a :: a in live ==> a + live[a] <= units && live[a] > 0)
    && (forall i, a :: 0 <= i < |free| && a in live ==> !Covers(free[i], a))
  }

  lemma BlocksInHeap(h: Heap)
    requires Inv(h)
    ensures ApartFromLive(h.free, h.live, h.units)
  {
    forall i | 0 <= i < |h.free| ensures h.free[i].at + h.free[i].size <= h.units {
      var e := h.free[i];
      assert Covers(e, e.at + e.size - 1) && InFree(h.free, e.at + e.size - 1);
    }
    forall a | a in h.live ensures a + h.live[a] <= h.units {
      assert Covers(Extent(a, h.live[a]), a + h.live[a] - 1);
      assert InLive(h.live, a + h.live[a] - 1);
    }
    forall i, a | 0 <= i < |h.free| && a in h.live ensures !Covers(h.free[i], a) {
      LiveOutsideFree(h, a, i);
    }
  }

  lemma RotStep(i: nat, d: nat, n: nat)
    requires i < n && d < n
    ensures var c := Rot(i, d, n);
      Rot(i, d + 1, n) == (if c + 1 < n then c + 1 else 0) && Prev(Rot(i, d + 1, n), n) == c
    ensures Rot(i, 0, n) == i && Rot(i, n, n) == i
    ensures Rot(i, d + 1, n) == i <==> d + 1 == n
  {}

  lemma AtsDiffer(f: seq<Extent>, i: nat, j: nat)
    requires Apart(f) && i < |f| && j < |f| && i != j
    ensures f[i].at != f[j].at && !Covers(f[i], f[j].at)
  {}

  // ---------------------------------------------------------------- what malloc does to memory

  lemma RemoveLinks(f: seq<Extent>, j: nat, i: nat)
    requires j < |f| && |f| > 1 && i < |f| - 1
    ensures var g, o := f[..j] + f[j + 1..], if i < j then i else i + 1;
      g[i] == f[o] && Succ(g, i) == if o == Prev(j, |f|) then Succ(f, j) else Succ(f, o)
  {}

  lemma ListedAfterWhole(m: Memory, f: seq<Extent>, j: nat)
    requires Apart(f) && Listed(m, f) && j < |f| && |f| > 1
    ensures ListedAt(m, f, j) && ListedAt(m, f, Prev(j, |f|))
    ensures var p := f[Prev(j, |f|)].at;
      Listed(m[p := m[p].(next := m[f[j].at].next)], f[..j] + f[j + 1..])
  {
    assert ListedAt(m, f, j) && ListedAt(m, f, Prev(j, |f|));
    var p, g := f[Prev(j, |f|)].at, f[..j] + f[j + 1..];
    var m' := m[p := m[p].(next := m[f[j].at].next)];
    forall i | 0 <= i < |g| ensures ListedAt(m', g, i) {
      RemoveLinks(f, j, i);
      var o := if i < j then i else i + 1;
      assert ListedAt(m, f, o);
      if o != Prev(j, |f|) { AtsDiffer(f, o, Prev(j, |f|)); }
    }
  }

  /** The rover of malloc's heap stands where the node before node j stood. */
  lemma RoverAfterAllocate(h: Heap, j: nat, blocks: nat)
    requires h.rover < |h.free| && j < |h.free| && blocks <= h.free[j].size && !Exhausts(h, blocks)
    ensures var h' := Allocate(h, j, blocks);
      h'.rover < |h'.free| && h'.free[h'.rover].at == h.free[Prev(j, |h.free|)].at
  {}

  lemma RepAfterWhole(m: Memory, freeNode: int, h: Heap, j: nat)
    requires Inv(h) && Rep(m, freeNode, h) && j < |h.free| && |h.free| > 1
    ensures ListedAt(m, h.free, j) && ListedAt(m, h.free, Prev(j, |h.free|))
    ensures var p := h.free[Prev(j, |h.free|)].at;
      Rep(m[p := m[p].(next := m[h.free[j].at].next)], p, Allocate(h, j, h.free[j].size))
  {
    hide Partition, LiveApart, SumFree, SumLive, InFree, InLive, Apart, Listed, Succ, Prev;
    ListedAfterWhole(m, h.free, j);
    RoverAfterAllocate(h, j, h.free[j].size);
  }

  lemma ListedAfterCut(m: Memory, f: seq<Extent>, j: nat, blocks: nat)
    requires Apart(f) && Listed(m, f) && j < |f| && 0 < blocks < f[j].size
    requires f[j].at + f[j].size - blocks in m
    ensures var e := f[j];
      var a := e.at + e.size - blocks;
      && e.at in m
      && var m1 := m[e.at := m[e.at].(size := e.size - blocks)];
      Listed(m1[a := m1[a].(size := blocks)], f[j := Extent(e.at, e.size - blocks)])
  {
    assert ListedAt(m, f, j);
    var e := f[j];
    var a := e.at + e.size - blocks;
    var m1 := m[e.at := m[e.at].(size := e.size - blocks)];
    var m' := m1[a := m1[a].(size := blocks)];
    var g := f[j := Extent(e.at, e.size - blocks)];
    forall i | 0 <= i < |g| ensures ListedAt(m', g, i) {
      assert ListedAt(m, f, i);
      if i != j { AtsDiffer(f, j, i); }
    }
  }

  lemma LiveAfterCut(m: Memory, h: Heap, j: nat, blocks: nat)
    requires ApartFromLive(h.free, h.live, h.units) && LiveSizes(m, h.live) && j < |h.free|
             && 0 < blocks < h.free[j].size
    requires h.free[j].at in m && h.free[j].at + h.free[j].size - blocks in m
    ensures var e := h.free[j];
      var a := e.at + e.size - blocks;
      var m1 := m[e.at := m[e.at].(size := e.size - blocks)];
      LiveSizes(m1[a := m1[a].(size := blocks)], h.live[a := blocks])
  {
    hide Apart;
    var e := h.free[j];
    assert forall b :: b in h.live ==> !Covers(e, b);
  }

  lemma RepAfterCut(m: Memory, freeNode: int, h: Heap, j: nat, blocks: nat)
    requires Inv(h) && Rep(m, freeNode, h) && j < |h.free| && 0 < blocks < h.free[j].size
    ensures var e := h.free[j];
      var a := e.at + e.size - blocks;
      && e.at in m && a in m
      && var m1 := m[e.at := m[e.at].(size := e.size - blocks)];
      Rep(m1[a := m1[a].(size := blocks)], h.free[Prev(j, |h.free|)].at, Allocate(h, j, blocks))
  {
    hide Partition, LiveApart, SumFree, SumLive, InFree, InLive, Apart, Listed, LiveSizes, Succ, Prev;
    BlocksInHeap(h);
    ListedAfterCut(m, h.free, j, blocks);
    LiveAfterCut(m, h, j, blocks);
    RoverAfterAllocate(h, j, blocks);
  }

  // ---------------------------------------------------------------- what free does to memory

  /** The two joins at the end of free, on memory: fb is the block, cur the node before it. */
  function Spliced(m: Memory, cur: int, fb: int): Memory
    requires cur in m && fb in m && m[cur].next in m
  {
    var next := m[cur].next;
    var size := m[fb].size;
    var joined := if fb + size == next then Header(m[next].next, size + m[next].size) else Header(next, size);
    var m1 := m[fb := joined];
    if cur + m1[cur].size == fb then m1[cur := Header(joined.next, m1[cur].size + joined.size)]
    else m1[cur := m1[cur].(next := fb)]
  }

  lemma InsertLinks(f: seq<Extent>, lo: nat, m: Extent, hi: nat, i: nat)
    requires lo <= hi <= |f| && i < lo + 1 + |f| - hi
    ensures var g := f[..lo] + [m] + f[hi..];
      && |g| == lo + 1 + |f| - hi
      && g[i] == (if i < lo then f[i] else if i == lo then m else f[i - lo - 1 + hi])
      && g[0].at == (if lo > 0 then f[0].at else m.at)
      && Succ(g, i) == (if i < lo then (if i + 1 == lo then m.at else f[i + 1].at)
                        else if i - lo + hi < |f| then f[i - lo + hi].at else g[0].at)
  {}

  /** The node at which the walk of free stops: the last one below position p, or the highest. */
  function Cur(f: seq<Extent>, p: nat): (c: nat)
    requires f != [] && p <= |f|
    ensures c < |f|
  {
    if p > 0 then p - 1 else |f| - 1
  }

  /** What the two joins write: the header of the block and that of the node before it. */
  ghost predicate SplicedAs(m: Memory, m': Memory, f: seq<Extent>, p: nat, e: Extent)
    requires f != [] && p <= |f|
  {
    var c, nx := Cur(f, p), if p < |f| then p else 0;
    && m'.Keys == m.Keys && e.at in m && f[c].at in m
    && m'[e.at] == (if Upper(f, p, e) then Header(Succ(f, nx), e.size + f[nx].size) else Header(f[nx].at, e.size))
    && m'[f[c].at] == (if Lower(f, p, e) then Header(m'[e.at].next, f[c].size + m'[e.at].size)
                       else Header(e.at, f[c].size))
    && forall u :: u in m && u != e.at && u != f[c].at ==> m'[u] == m[u]
  }

  lemma SplicedHeaders(m: Memory, f: seq<Extent>, p: nat, e: Extent)
    requires Gap(f, p, e) && Listed(m, f) && e.at in m && m[e.at].size == e.size
    ensures ListedAt(m, f, Cur(f, p)) && m[f[Cur(f, p)].at].next in m
    ensures SplicedAs(m, Spliced(m, f[Cur(f, p)].at, e.at), f, p, e)
  {
    var c, nx := Cur(f, p), if p < |f| then p else 0;
    assert ListedAt(m, f, c) && ListedAt(m, f, nx);
    assert Upper(f, p, e) <==> e.at + e.size == f[nx].at;
    assert Lower(f, p, e) <==> f[c].at + f[c].size == e.at;
  }

  lemma JoinedListed(m: Memory, m': Memory, f: seq<Extent>, p: nat, e: Extent)
    requires Gap(f, p, e) && SplicedAs(m, m', f, p, e) && !(|f| == 1 && Upper(f, p, e))
    ensures ListedAt(m', f[..Low(f, p, e)] + [Joined(f, p, e)] + f[High(f, p, e)..], Low(f, p, e))
  {
    InsertLinks(f, Low(f, p, e), Joined(f, p, e), High(f, p, e), Low(f, p, e));
  }

  /** Which extent of f stands at another position of the spliced list, and which follows. */
  lemma OtherLinks(f: seq<Extent>, p: nat, e: Extent, i: nat) returns (o: nat)
    requires Gap(f, p, e) && i != Low(f, p, e) && i < Low(f, p, e) + 1 + |f| - High(f, p, e)
    ensures o < |f| && (o == Cur(f, p) ==> !Lower(f, p, e))
    ensures var g := f[..Low(f, p, e)] + [Joined(f, p, e)] + f[High(f, p, e)..];
      g[i] == f[o] && Succ(g, i) == if o == Cur(f, p) then e.at else Succ(f, o)
  {
    hide Gap, Apart;
    var lo, hi := Low(f, p, e), High(f, p, e);
    InsertLinks(f, lo, Joined(f, p, e), hi, i);
    o := if i < lo then i else i - lo - 1 + hi;
  }

  lemma OtherHeader(m: Memory, m': Memory, f: seq<Extent>, p: nat, e: Extent, o: nat)
    requires Gap(f, p, e) && Listed(m, f) && SplicedAs(m, m', f, p, e) && o < |f|
    requires o == Cur(f, p) ==> !Lower(f, p, e)
    ensures f[o].at in m' && m'[f[o].at] == Header(if o == Cur(f, p) then e.at else Succ(f, o), f[o].size)
  {
    hide Succ, Lower, Upper, Cur;
    assert ListedAt(m, f, o);
    if o != Cur(f, p) { AtsDiffer(f, o, Cur(f, p)); }
  }

  lemma OtherListed(m: Memory, m': Memory, f: seq<Extent>, p: nat, e: Extent, i: nat)
    requires Gap(f, p, e) && Listed(m, f) && SplicedAs(m, m', f, p, e)
    requires i != Low(f, p, e) && i < Low(f, p, e) + 1 + |f| - High(f, p, e)
    ensures ListedAt(m', f[..Low(f, p, e)] + [Joined(f, p, e)] + f[High(f, p, e)..], i)
  {
    hide Gap, Apart, Listed, SplicedAs, Succ, Cur, Lower, Upper, Low, High, Joined;
    var o := OtherLinks(f, p, e, i);
    OtherHeader(m, m', f, p, e, o);
  }

  lemma ListedAfterFree(m: Memory, m': Memory, f: seq<Extent>, p: nat, e: Extent)
    requires Gap(f, p, e) && Listed(m, f) && SplicedAs(m, m', f, p, e) && !(|f| == 1 && Upper(f, p, e))
    ensures Listed(m', f[..Low(f, p, e)] + [Joined(f, p, e)] + f[High(f, p, e)..])
  {
    assert p <= |f|;
    hide Gap, Apart, SplicedAs, Joined, ListedAt, Lower, Upper, Low, High;
    var g := f[..Low(f, p, e)] + [Joined(f, p, e)] + f[High(f, p, e)..];
    forall i | 0 <= i < |g| ensures ListedAt(m', g, i) {
      if i == Low(f, p, e) { JoinedListed(m, m', f, p, e); } else { OtherListed(m, m', f, p, e, i); }
    }
  }

  /** Where the rover points in a list that was spliced from lo to hi around position p. */
  lemma RoverInSplice(f: seq<Extent>, lo: nat, m: Extent, hi: nat, p: nat)
    requires f != [] && lo <= hi <= |f| && p <= |f|
    requires if p > 0 then lo == p || (lo == p - 1 && m.at == f[p - 1].at) else lo == 0 && hi < |f|
    ensures var g := f[..lo] + [m] + f[hi..];
      var i := if p > 0 then p - 1 else |g| - 1;
      i < |g| && g[i].at == f[Cur(f, p)].at
  {
    InsertLinks(f, lo, m, hi, if p > 0 then p - 1 else lo + |f| - hi);
  }

  lemma RoverBound(h: Heap)
    requires Inv(h)
    ensures h.rover < |h.free|
  {}

  /** The splice reaches one extent below the block, if any, and stops short of the end when
      the block lies below them all. */
  lemma SpliceSides(h: Heap, a: nat)
    requires Inv(h) && a in h.live && !MergesUnderOnly(h, a)
    ensures var f, e, p := h.free, Extent(a, h.live[a]), Pos(h.free, a);
      && p <= |f|
      && if p > 0 then Low(f, p, e) == p || (Low(f, p, e) == p - 1 && Joined(f, p, e).at == f[p - 1].at)
         else Low(f, p, e) == 0 && High(f, p, e) < |f|
  {
    hide Inv, Pos;
    RoverBound(h);
    Neighbours(h, a);
  }

  lemma RoverAfterFree(h: Heap, a: nat)
    requires Inv(h) && a in h.live && !MergesUnderOnly(h, a)
    ensures var h' := Free(h, a);
      h'.rover < |h'.free| && h'.free[h'.rover].at == h.free[Cur(h.free, Pos(h.free, a))].at
  {
    hide Inv, Pos, Cur, Low, High, Joined, MergesUnderOnly, Gap;
    RoverBound(h);
    var f, e := h.free, Extent(a, h.live[a]);
    var p := Pos(f, a);
    SpliceSides(h, a);
    RoverInSplice(f, Low(f, p, e), Joined(f, p, e), High(f, p, e), p);
  }

  lemma LiveAfterFree(m: Memory, m': Memory, h: Heap, a: nat)
    requires ApartFromLive(h.free, h.live, h.units) && a in h.live && h.free != [] && Apart(h.free)
    requires LiveSizes(m, h.live) && SplicedAs(m, m', h.free, Pos(h.free, a), Extent(a, h.live[a]))
    ensures LiveSizes(m', h.live - {a})
  {
    hide Lower, Upper, Cur, Succ;
    var cur := h.free[Cur(h.free, Pos(h.free, a))];
    assert cur.size > 0;
    assert forall b :: b in h.live ==> !Covers(cur, b) && b != cur.at;
  }

  lemma RepAfterFree(m: Memory, freeNode: int, h: Heap, a: nat)
    requires Inv(h) && Rep(m, freeNode, h) && a in h.live && !MergesUnderOnly(h, a)
    ensures ListedAt(m, h.free, Cur(h.free, Pos(h.free, a))) && m[h.free[Cur(h.free, Pos(h.free, a))].at].next in m
    ensures var cur := h.free[Cur(h.free, Pos(h.free, a))].at;
      Rep(Spliced(m, cur, a), cur, Free(h, a))
  {
    hide Partition, LiveApart, SumFree, SumLive, InFree, InLive;
    var f, e := h.free, Extent(a, h.live[a]);
    var p := Pos(f, a);
    Neighbours(h, a);
    RoverAfterFree(h, a);
    BlocksInHeap(h);
    assert !(|f| == 1 && Upper(f, p, e));
    hide Apart, ApartFromLive, Gap, Low, High, Joined, ListedAt, Upper, Lower, Succ;
    SplicedHeaders(m, f, p, e);
    var m' := Spliced(m, f[Cur(f, p)].at, a);
    LiveAfterFree(m, m', h, a);
    ListedAfterFree(m, m', f, p, e);
  }

  // ---------------------------------------------------------------- the two cases the source gets wrong

  /** After the only free node has been handed out whole, it is still on the free list:
      memory represents no heap in which that block is live. */
  lemma ExhaustedListIsBroken(m: Memory, freeNode: nat, h: Heap)
    requires Inv(h) && Rep(m, freeNode, h)
    ensures freeNode !in h.live
  {
    BlocksInHeap(h);
    assert Covers(h.free[h.rover], freeNode);
  }

  lemma NextNodeIsApart(m: Memory, node: int, h: Heap)
    requires Inv(h) && Rep(m, node, h)
    ensures node in m && m[node].next in m
    ensures m[node].next != node ==> !(m[node].next < node < m[node].next + m[m[node].next].size)
  {
    var f, r := h.free, h.rover;
    var s := if r + 1 < |f| then r + 1 else 0;
    assert ListedAt(m, f, r) && ListedAt(m, f, s);
    if s != r { AtsDiffer(f, s, r); }
  }

  /** After the block just below the only free node has been freed, the list holds two
      nodes of which one lies inside the other: memory represents no heap. */
  lemma UnderOnlyIsBroken(m: Memory, fb: nat, node: nat, h: Heap)
    requires node in m && fb in m && m[node].next == fb && fb < node < fb + m[fb].size
    requires Inv(h)
    ensures !Rep(m, node, h)
  {
    if Rep(m, node, h) {
      NextNodeIsApart(m, node, h);
      assert false;
    }
  }

  // ---------------------------------------------------------------- the list walk of free

  /** The walk stops at the node before the block and nowhere else: either the block lies
      between a node and the next one, or past the highest node, or before the lowest. */
  lemma StopsAtCur(f: seq<Extent>, p: nat, e: Extent, c: nat)
    requires Gap(f, p, e) && c < |f|
    ensures e.at != f[c].at && e.at != Succ(f, c)
    ensures f[c].at >= Succ(f, c) <==> c == |f| - 1
    ensures c == Cur(f, p) <==>
            (f[c].at < e.at < Succ(f, c)) || (f[c].at >= Succ(f, c) && (e.at > f[c].at || e.at < Succ(f, c)))
    ensures f[c].at < e.at < Succ(f, c) ==> f[c].at + f[c].size <= e.at && e.at + e.size <= Succ(f, c)
  {
    if c + 1 < |f| { assert f[c].at + f[c].size < f[c + 1].at; }
    if c > 0 { assert f[0].at + f[0].size < f[c].at; }
  }

  /** The unit that a byte pointer names, if it passes the checks at the start of free. The
      upper check scales by the header size twice, as the source does. */
  function Named(memory: Option<int>, headerBlocks: nat): Option<nat> {
    if memory == None || (memory.value - HEADER_BYTES) % HEADER_BYTES != 0 then None
    else
      var u := (memory.value - HEADER_BYTES) / HEADER_BYTES;
      if u < 0 || u >= headerBlocks * HEADER_BYTES then None else Some(u)
  }

  /** Every pointer that malloc answered passes the tests of free, and names its block. */
  lemma PointerNames(h: Heap, a: nat)
    requires Inv(h) && a in h.live
    ensures Named(Some(HEADER_BYTES * (a + 1)), h.units) == Some(a)
  {
    BlocksInHeap(h);
  }

  /** The tests of free one by one. */
  lemma NamedCases(memory: Option<int>, headerBlocks: nat)
    ensures memory == None || (memory.value - HEADER_BYTES) % HEADER_BYTES != 0 ==> Named(memory, headerBlocks) == None
    ensures memory.Some? && (memory.value % HEADER_BYTES != 0 || memory.value < HEADER_BYTES) ==>
              Named(memory, headerBlocks) == None
    ensures memory.Some? && (memory.value - HEADER_BYTES) % HEADER_BYTES == 0 ==>
              var u := (memory.value - HEADER_BYTES) / HEADER_BYTES;
              Named(memory, headerBlocks) == if u < 0 || u >= headerBlocks * HEADER_BYTES then None else Some(u)
  {}

  lemma LiveIsNamed(h: Heap, memory: Option<int>)
    requires Inv(h)
    ensures forall a :: a in h.live && memory == Some(HEADER_BYTES * (a + 1)) ==> Named(memory, h.units) == Some(a)
  {
    forall a | a in h.live && memory == Some(HEADER_BYTES * (a + 1)) ensures Named(memory, h.units) == Some(a) {
      PointerNames(h, a);
    }
  }

  /** malloc and then free of the pointer it answered, in memory: the same free extents and
      live blocks, linked and sized as before. */
  method MallocThenFree(list: FreeList, bytes: nat)
    requires list.Valid() && bytes + HEADER_BYTES - 1 < TWO_TO_THE_64 && !Exhausts(list.model, Blocks(bytes))
    modifies list
    ensures list.Valid() && list.model.free == old(list.model.free) && list.model.live == old(list.model.live)
    ensures Listed(list.mem, old(list.model.free)) && LiveSizes(list.mem, old(list.model.live))
  {
    hide Inv, Rep, KRModel.Malloc, KRModel.Free, MergesUnderOnly, Exhausts, Blocks;
    ghost var h := list.model;
    MallocKeepsUnits(h, bytes);
    if KRModel.Malloc(h, bytes).1.Some? {
      RoundTrip(h, bytes);
      RoundTripIsSafe(h, bytes);
    }
    var p := list.Malloc(bytes);
    if p.Some? { PointerNames(list.model, KRModel.Malloc(h, bytes).1.value); }
    list.Free(p);
    RepParts(list.mem, list.freeNode, list.model);
  }

  lemma RepParts(m: Memory, freeNode: int, h: Heap)
    requires Rep(m, freeNode, h)
    ensures Listed(m, h.free) && LiveSizes(m, h.live)
  {}

  lemma MallocKeepsUnits(h: Heap, bytes: nat)
    requires Inv(h) && !Exhausts(h, Blocks(bytes))
    ensures h.rover < |h.free| && (KRModel.Malloc(h, bytes).1 == None ==> KRModel.Malloc(h, bytes).0 == h)
    ensures Inv(KRModel.Malloc(h, bytes).0)
  {
    hide Inv;
    RoverBound(h);
    MallocKeepsInv(h, bytes);
  }

  /** What free needs to know before it writes, and what its writes will amount to. */
  lemma FreeReady(m: Memory, freeNode: int, h: Heap, a: nat)
    requires Inv(h) && Rep(m, freeNode, h) && a in h.live
    ensures var cur := h.free[Cur(h.free, Pos(h.free, a))].at;
      && cur in m && a in m && m[cur].next in m && cur != a
      && (!MergesUnderOnly(h, a) ==> Rep(Spliced(m, cur, a), cur, Free(h, a)) && Inv(Free(h, a)))
      && (MergesUnderOnly(h, a) ==>
          var m' := Spliced(m, cur, a);
          cur == freeNode && m'.Keys == m.Keys && m'[cur].next == a && a < cur < a + m'[a].size)
  {
    var f := h.free;
    Neighbours(h, a);
    SplicedHeaders(m, f, Pos(f, a), Extent(a, h.live[a]));
    if !MergesUnderOnly(h, a) {
      RepAfterFree(m, freeNode, h, a);
      FreeKeepsInv(h, a);
    } else {
      assert ListedAt(m, f, 0);
    }
  }

  /** How many steps the walk still has to make. */
  function Distance(c: nat, t: nat, n: nat): (d: nat)
    requires c < n && t < n
    ensures d == 0 <==> c == t
  {
    if c <= t then t - c else t + n - c
  }

  /** header_blocks: the heap in units, rounded up, and one more. */
  function HeaderBlocks(heapSize: nat): (n: nat)
    ensures n >= 1 && heapSize + HEADER_BYTES <= HEADER_BYTES * n < heapSize + 2 * HEADER_BYTES
  {
    (heapSize + HEADER_BYTES - 1) / HEADER_BYTES + 1
  }

  /** The first block handed out holds the last of these units, and so reaches past the end
      of the heap that was given by 16 bytes or more. */
  lemma FirstBlockPassesEnd(heapSize: nat, bytes: nat)
    requires KRModel.Malloc(Initial(HeaderBlocks(heapSize)), bytes).1.Some?
    ensures var a := KRModel.Malloc(Initial(HeaderBlocks(heapSize)), bytes).1.value;
      && HEADER_BYTES * (a + Blocks(bytes)) >= heapSize + HEADER_BYTES
      && Covers(Extent(a, Blocks(bytes)), HeaderBlocks(heapSize) - 1)
      && HEADER_BYTES * (HeaderBlocks(heapSize) - 1) >= heapSize
  {
    hide HeaderBlocks;
    var units := HeaderBlocks(heapSize);
    assert NextFit(Initial(units).free, 0, Blocks(bytes), 1) == Some(0);
  }

  class FreeList {
    var mem: Memory
    var freeNode: int
    var headerBlocks: nat
    ghost var model: Heap

    ghost predicate Valid()
      reads this
    {
      && Inv(model)
      && Rep(mem, freeNode, model)
      && headerBlocks == model.units
    }

    constructor InitializeMemoryManager(raw: Memory, heapSize: nat)
      requires forall u: int :: 0 <= u < HeaderBlocks(heapSize) ==> u in raw
      ensures Valid() && model == Initial(HeaderBlocks(heapSize))
    {
      headerBlocks := (heapSize + HEADER_BYTES - 1) / HEADER_BYTES + 1;
      freeNode := 0;
      mem := raw;
      new;
      mem := mem[freeNode := mem[freeNode].(size := headerBlocks)];
      mem := mem[freeNode := mem[freeNode].(next := freeNode)];
      model := Initial(headerBlocks);
      InitialInv(headerBlocks);
      assert ListedAt(mem, model.free, 0);
    }

    method Malloc(bytes: nat) returns (p: Option<int>)
      requires Valid() && bytes + HEADER_BYTES - 1 < TWO_TO_THE_64
      modifies this`mem, this`freeNode, this`model
      ensures bytes == 0 || !Exhausts(old(model), Blocks(bytes)) ==>
                && Valid()
                && model == KRModel.Malloc(old(model), bytes).0
                && p == match KRModel.Malloc(old(model), bytes).1
                        case None => None
                        case Some(a) => Some(HEADER_BYTES * (a + 1))
      // Otherwise the node handed out is the one that the list still consists of.
      ensures bytes != 0 && Exhausts(old(model), Blocks(bytes)) ==>
                && p == Some(HEADER_BYTES * (old(freeNode) + 1))
                && mem == old(mem) && freeNode == old(freeNode) && model == old(model)
    {
      hide Inv, Rep, Rot, Prev, Allocate;
      if bytes == 0 {
        return None;
      }
      var blocks := (bytes + HEADER_BYTES - 1) / HEADER_BYTES + 1;
      assert blocks == Blocks(bytes);
      ghost var f, r, d := model.free, model.rover, 0;
      RoverBound(model);
      AroundRing(model, mem, freeNode, 0);
      var prev := freeNode;
      var current := mem[prev].next;
      while true
        invariant mem == old(mem) && freeNode == old(freeNode) && model == old(model)
        invariant 0 <= d < |f| && prev == f[Rot(r, d, |f|)].at && current == f[Rot(r, d + 1, |f|)].at
        invariant NextFit(f, r, blocks, d + 1) == NextFit(f, r, blocks, 1)
        decreases |f| - d
      {
        AroundRing(model, mem, freeNode, d);
        if mem[current].size >= blocks {
          p := TakeFrom(prev, current, blocks, Rot(r, d + 1, |f|));
          return;
        }
        if current == freeNode {
          return None;
        }
        d := d + 1;
        AroundRing(model, mem, freeNode, d);
        prev := current;
        current := mem[prev].next;
      }
    }

    /** The first if of malloc's loop body, for node j with room for blocks units. */
    method TakeFrom(prev: int, node: int, blocks: nat, ghost j: nat) returns (p: Option<int>)
      requires Valid() && j < |model.free| && node == model.free[j].at && prev == model.free[Prev(j, |model.free|)].at
      requires 0 < blocks <= model.free[j].size
      modifies this`mem, this`freeNode, this`model
      ensures !Exhausts(old(model), blocks) ==>
                && Valid() && model == Allocate(old(model), j, blocks)
                && p == Some(HEADER_BYTES * (old(model).free[j].at + old(model).free[j].size - blocks + 1))
      ensures Exhausts(old(model), blocks) ==>
                && p == Some(HEADER_BYTES * (old(freeNode) + 1))
                && mem == old(mem) && freeNode == old(freeNode) && model == old(model)
    {
      hide Partition, LiveApart, SumFree, SumLive, InFree, InLive, Apart;
      var current := node;
      assert ListedAt(mem, model.free, j) && ListedAt(mem, model.free, Prev(j, |model.free|));
      assert model.free[j].size > 0 && model.free[j].size - blocks >= 0;
      if mem[current].size == blocks {
        if |model.free| > 1 { RepAfterWhole(mem, freeNode, model, j); }
        mem := mem[prev := mem[prev].(next := mem[current].next)];
      } else {
        RepAfterCut(mem, freeNode, model, j, blocks);
        mem := mem[current := mem[current].(size := mem[current].size - blocks)];
        current := current + mem[current].size;
        mem := mem[current := mem[current].(size := blocks)];
      }
      freeNode := prev;
      if !Exhausts(model, blocks) {
        AllocateKeepsInv(model, j, blocks);
        model := Allocate(model, j, blocks);
      }
      p := Some(HEADER_BYTES * (current + 1));
    }

    /** The two joins at the end of free. */
    method Splice(currentBlock: int, freeBlock: int)
      requires currentBlock in mem && freeBlock in mem && mem[currentBlock].next in mem && currentBlock != freeBlock
      modifies this`mem
      ensures mem == Spliced(old(mem), currentBlock, freeBlock)
    {
      var next := mem[currentBlock].next;
      if freeBlock + mem[freeBlock].size == next {
        mem := mem[freeBlock := mem[freeBlock].(size := mem[freeBlock].size + mem[next].size)];
        mem := mem[freeBlock := mem[freeBlock].(next := mem[next].next)];
      } else {
        mem := mem[freeBlock := mem[freeBlock].(next := next)];
      }
      if currentBlock + mem[currentBlock].size == freeBlock {
        mem := mem[currentBlock := mem[currentBlock].(size := mem[currentBlock].size + mem[freeBlock].size)];
        mem := mem[currentBlock := mem[currentBlock].(next := mem[freeBlock].next)];
      } else {
        mem := mem[currentBlock := mem[currentBlock].(next := freeBlock)];
      }
    }

    method Free(memory: Option<int>)
      requires Valid()
      requires Named(memory, headerBlocks).Some? ==> Named(memory, headerBlocks).value in model.live
      modifies this`mem, this`freeNode, this`model
      // The pointer that malloc answered for a live block frees that block.
      ensures forall a ::
                a in old(model.live) && memory == Some(HEADER_BYTES * (a + 1)) && !MergesUnderOnly(old(model), a) ==>
                  Valid() && model == KRModel.Free(old(model), a)
      // NULL, a pointer between two headers and one below the first block are ignored.
      ensures memory == None || memory.value % HEADER_BYTES != 0 || memory.value < HEADER_BYTES ==>
                Valid() && mem == old(mem) && freeNode == old(freeNode) && model == old(model)
      // A pointer that cannot be one of malloc's is ignored.
      ensures Named(memory, headerBlocks) == None ==>
                Valid() && mem == old(mem) && freeNode == old(freeNode) && model == old(model)
      ensures Named(memory, headerBlocks).Some? ==>
                var a: nat := Named(memory, headerBlocks).value;
                if MergesUnderOnly(old(model), a) then
                  // The list becomes the block and, inside it, the node it was merged with.
                  freeNode == old(freeNode) && freeNode in mem && a in mem && mem[freeNode].next == a
                  && a < freeNode < a + mem[a].size
                else
                  Valid() && model == KRModel.Free(old(model), a)
    {
      hide Inv, Rep, Named, MergesUnderOnly, Gap, Pos, Cur;
      RoverBound(model);
      LiveIsNamed(model, memory);
      NamedCases(memory, headerBlocks);
      if memory == None || (memory.value - HEADER_BYTES) % HEADER_BYTES != 0 {
        return;
      }
      var freeBlock := (memory.value - HEADER_BYTES) / HEADER_BYTES;
      if freeBlock < 0 || freeBlock >= headerBlocks * HEADER_BYTES {
        return;
      }
      var currentBlock := WalkTo(freeBlock);
      FreeReady(mem, freeNode, model, freeBlock);
      Splice(currentBlock, freeBlock);
      freeNode := currentBlock;
      if !MergesUnderOnly(model, freeBlock) {
        model := KRModel.Free(model, freeBlock);
      }
    }

    /** The search of free: walk the ring from free_node to the place of the block. */
    method WalkTo(freeBlock: int) returns (currentBlock: int)
      requires Valid() && freeBlock in model.live
      ensures currentBlock == model.free[Cur(model.free, Pos(model.free, freeBlock))].at
    {
      ghost var f, e := model.free, Extent(freeBlock, model.live[freeBlock]);
      ghost var p := Pos(f, freeBlock);
      ghost var c: nat := model.rover;
      Neighbours(model, freeBlock);
      StopsAtCur(f, p, e, c);
      assert ListedAt(mem, f, c);
      var validExternal := false;
      currentBlock := freeNode;
      while !(freeBlock > currentBlock && freeBlock < mem[currentBlock].next)
        invariant c < |f| && currentBlock == f[c].at && ListedAt(mem, f, c)
        invariant !validExternal
        decreases Distance(c, Cur(f, p), |f|)
      {
        StopsAtCur(f, p, e, c);
        var next := mem[currentBlock].next;
        if currentBlock == freeBlock || next == freeBlock {
          assert false;  // the source returns here: the block is free already
        }
        if currentBlock >= next && (freeBlock > currentBlock || freeBlock < next) {
          validExternal := true;
          break;
        }
        c := if c + 1 < |f| then c + 1 else 0;
        currentBlock := next;
        assert ListedAt(mem, f, c);
      }
      StopsAtCur(f, p, e, c);
      if !validExternal && (currentBlock + mem[currentBlock].size > freeBlock ||
                            freeBlock + mem[freeBlock].size > mem[currentBlock].next) {
        assert false;  // and here: the block overlaps a free extent
      }
    }

    /** The do-while loop of getMemoryInfo. */
    method SumRing() returns (cant: nat)
      requires Valid()
      ensures cant == SumFree(model.free)
    {
      hide Inv, Rep, SumFree, Rot, ListedAt;
      RoverBound(model);
      ghost var f, r := model.free, model.rover;
      ghost var d: nat := 0;
      cant := 0;
      var current := freeNode;
      AroundRing(model, mem, freeNode, 0);
      while true
        invariant 0 <= d < |f| && current == f[Rot(r, d, |f|)].at
        invariant cant == SumFrom(f, r, d)
        decreases |f| - d
      {
        AroundRing(model, mem, freeNode, d);
        cant := cant + mem[current].size;
        current := mem[current].next;
        d := d + 1;
        if current == freeNode { break; }
      }
      SumAround(f, r);
    }

    /** getMemoryInfo: the report itself is allocated first, then the ring is summed. */
    method GetMemoryInfo() returns (info: Option<(nat, nat)>)
      requires Valid() && !Exhausts(model, Blocks(16))
      modifies this`mem, this`freeNode, this`model
      ensures Valid() && model == KRModel.Malloc(old(model), 16).0
      ensures info == None <==> KRModel.Malloc(old(model), 16).1 == None
      ensures info.Some? ==> info.value == (HEADER_BYTES * SumFree(model.free), HEADER_BYTES * model.units)
      ensures info.Some? ==> info.value.0 + HEADER_BYTES * SumLive(model.live) == info.value.1
    {
      MallocKeepsInv(model, 16);
      var toReturn := Malloc(16);
      if toReturn == None {
        return None;
      }
      var cant := SumRing();
      return Some((cant * HEADER_BYTES, headerBlocks * HEADER_BYTES));
    }

    /** The user of a live block may store anything past its header. */
    method UserWrite(a: nat, u: nat, junk: Header)
      requires Valid() && a in model.live && a < u < a + model.live[a]
      modifies this`mem
      ensures Valid() && mem == old(mem)[u := junk]
    {
      mem := mem[u := junk];
      PayloadIsNoHeader(model, a, u);
      forall i | 0 <= i < |model.free| ensures ListedAt(mem, model.free, i) {
        assert ListedAt(old(mem), model.free, i);
      }
    }
  }

  lemma PayloadIsNoHeader(h: Heap, a: nat, u: nat)
    requires Inv(h) && a in h.live && a < u < a + h.live[a]
    ensures u !in h.live && forall i :: 0 <= i < |h.free| ==> h.free[i].at != u
  {
    assert Covers(Extent(a, h.live[a]), u);
    assert u in h.live ==> Covers(Extent(u, h.live[u]), u);
    forall i | 0 <= i < |h.free| ensures h.free[i].at != u { LiveOutsideFree(h, a, i); }
  }

  /** Sizes of d nodes from node r on, around the ring. */
  function SumFrom(f: seq<Extent>, r: nat, d: nat): nat
    requires r < |f| && d <= |f|
  {
    if d == 0 then 0 else SumFrom(f, r, d - 1) + f[Rot(r, d - 1, |f|)].size
  }

  lemma {:induction false} SumFromIsPrefix(f: seq<Extent>, r: nat, d: nat)
    requires r < |f| && d <= |f| - r
    ensures SumFrom(f, r, d) == SumFree(f[r..r + d])
  {
    if d == 0 {
    } else {
      SumFromIsPrefix(f, r, d - 1);
      assert f[r..r + d] == f[r..r + d - 1] + [f[r + d - 1]];
      SumFreeConcat(f[r..r + d - 1], [f[r + d - 1]]);
    }
  }

  lemma {:induction false} SumFromWraps(f: seq<Extent>, r: nat, d: nat)
    requires r < |f| && |f| - r <= d <= |f|
    ensures SumFrom(f, r, d) == SumFree(f[r..]) + SumFree(f[..d - (|f| - r)])
  {
    if d == |f| - r {
      SumFromIsPrefix(f, r, d);
      assert f[r..r + d] == f[r..];
    } else {
      SumFromWraps(f, r, d - 1);
      var k := d - (|f| - r);
      assert f[..k] == f[..k - 1] + [f[k - 1]];
      SumFreeConcat(f[..k - 1], [f[k - 1]]);
    }
  }

  /** The d-th node after the rover, as the headers show it. */
  lemma AroundRing(h: Heap, m: Memory, freeNode: int, d: nat)
    requires Inv(h) && Rep(m, freeNode, h) && d < |h.free|
    ensures var f, r := h.free, h.rover;
      var c: nat := Rot(r, d, |f|);
      && freeNode == f[r].at && Rot(r, 0, |f|) == r
      && f[c].at in m && m[f[c].at].size == f[c].size && m[f[c].at].next == f[Rot(r, d + 1, |f|)].at
      && (d + 1 < |f| ==> f[Rot(r, d + 1, |f|)].at != freeNode)
      && (d + 1 == |f| ==> f[Rot(r, d + 1, |f|)].at == freeNode)
      && f[Rot(r, d + 1, |f|)].at in m && m[f[Rot(r, d + 1, |f|)].at].size == f[Rot(r, d + 1, |f|)].size
      && Prev(Rot(r, d + 1, |f|), |f|) == c
  {
    hide Partition, LiveApart, SumFree, SumLive, InFree, InLive, Apart, Rot;
    var f, r := h.free, h.rover;
    var c: nat := Rot(r, d, |f|);
    assert ListedAt(m, f, c);
    RotStep(r, d, |f|);
    RotStep(r, 0, |f|);
    var c': nat := Rot(r, d + 1, |f|);
    assert ListedAt(m, f, c');
    if c' != r { AtsDiffer(f, c', r); }
  }

  /** Once around the ring sums the whole free list, wherever it starts. */
  lemma SumAround(f: seq<Extent>, r: nat)
    requires r < |f|
    ensures SumFrom(f, r, |f|) == SumFree(f)
  {
    SumFromWraps(f, r, |f|);
    assert f == f[..r] + f[r..];
    SumFreeConcat(f[..r], f[r..]);
  }
}

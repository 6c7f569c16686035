/** The buddy allocator as it runs (Kernel/memory_manager/buddy.c and buddyBTree.c):
    headers inside the heap, threaded into one circular doubly linked list per order
    whose sentinel is an entry of a static array. */
module BuddyAllocator {
  import opened Wrappers
  import opened Bits
  import opened BuddyTree
  import opened BuddyModel
  import opened BuddyRuns

  /** A list_t pointer: NULL, &orders[k], or the address base + o. */
  datatype Ptr = Null | Head(k: nat) | Block(o: nat)

  datatype Header = Header(prev: Ptr, next: Ptr, order: nat, free: bool)

  /** What a header read at each address would see. */
  type Memory = map<Ptr, Header>

  const MAX_BLOCK_COUNT: nat := 27

  function Min(a: nat, b: nat): nat { if a > b then b else a }

  // ---------------------------------------------------------------- rings

  function Nth(h: Ptr, l: seq<nat>, i: int): Ptr {
    if 0 < i <= |l| then Block(l[i - 1]) else h
  }

  ghost predicate LinkedAt(m: Memory, p: Ptr, q: Ptr) {
    p in m && q in m && m[p].next == q && m[q].prev == p
  }

  /** Starting at the sentinel h, the next links visit the blocks of l in order and come
      back to h, and the prev links are their inverse. */
  ghost predicate Ring(m: Memory, h: Ptr, l: seq<nat>) {
    forall i :: 0 <= i <= |l| ==> LinkedAt(m, Nth(h, l, i), Nth(h, l, i + 1))
  }

  ghost predicate SameLinks(m: Memory, m': Memory, p: Ptr) {
    p in m ==> p in m' && m'[p].prev == m[p].prev && m'[p].next == m[p].next
  }

  lemma RingFrame(m: Memory, m': Memory, h: Ptr, l: seq<nat>)
    requires Ring(m, h, l)
    requires SameLinks(m, m', h) && forall x :: x in l ==> SameLinks(m, m', Block(x))
    ensures Ring(m', h, l)
  {
    forall i | 0 <= i <= |l| ensures LinkedAt(m', Nth(h, l, i), Nth(h, l, i + 1)) {
      assert LinkedAt(m, Nth(h, l, i), Nth(h, l, i + 1));
      assert 0 < i <= |l| ==> l[i - 1] in l;
      assert 0 < i + 1 <= |l| ==> l[i] in l;
    }
  }

  /** Orders and free flags are no links. */
  lemma RingKeptByOrder(m: Memory, p: Ptr, order: nat, h: Ptr, l: seq<nat>)
    requires Ring(m, h, l) && p in m && h in m && forall x :: x in l ==> Block(x) in m
    ensures Ring(m[p := m[p].(order := order)], h, l)
  {
    RingFrame(m, m[p := m[p].(order := order)], h, l);
  }

  lemma RingInMemory(m: Memory, h: Ptr, l: seq<nat>)
    requires Ring(m, h, l)
    ensures h in m && forall x :: x in l ==> Block(x) in m
  {
    assert LinkedAt(m, Nth(h, l, 0), Nth(h, l, 1));
    forall x | x in l ensures Block(x) in m {
      var i :| 0 <= i < |l| && l[i] == x;
      assert LinkedAt(m, Nth(h, l, i), Nth(h, l, i + 1));
    }
  }

  /** The relation between memory and the abstract heap it represents. */
  ghost predicate Rep(m: Memory, s: Heap) {
    && |s.lists| == s.top + 1
    && (forall k: nat :: k <= s.top ==> Ring(m, Head(k), s.lists[k]))
    && Head(s.top + 1) in m && m[Head(s.top + 1)].prev == Null && m[Head(s.top + 1)].next == Null
    && (forall o: nat :: o < BlockSize(s.top) ==> Block(o) in m)
    && HeadersMatch(m, s)
  }

  /** Each current block has its order and its free flag in its header. */
  ghost predicate HeadersMatch(m: Memory, s: Heap) {
    forall o: nat, k: nat, g :: s.At(o, k, g) ==>
        Block(o) in m && m[Block(o)].order == k && m[Block(o)].free == (g != Live)
  }

  lemma ListDisjoint(m: Memory, s: Heap, j: nat, k: nat, x: nat)
    requires |s.lists| == s.top + 1 && ListsMatch(s) && HeadersMatch(m, s)
    requires j <= s.top && k <= s.top && x in s.lists[j] && x in s.lists[k]
    ensures j == k
  {
    assert s.At(x, j, Free) && s.At(x, k, Free);
  }

  /** The order of the largest block: log2 of the heap size, less 4. */
  function TopOrder(heapSize: nat): nat
  {
    var l := Log2Of(heapSize);
    if l < MIN_ALLOC_LOG2 then 0 else l - MIN_ALLOC_LOG2
  }

  lemma HeapSizeOrder(heapSize: nat)
    requires 32 <= heapSize < 0x4000_0000
    ensures heapSize % TWO_TO_THE_32 == heapSize
    ensures 5 <= Log2Of(heapSize) < 30
    ensures Sized(TopOrder(heapSize), heapSize)
  {
    hide Log2Of, Pow2, BlockSize;
    var l := Log2Of(heapSize);
    Log2Bounds(heapSize);
    Pow2Of30();
    Pow2Strict(l, 30);
    Pow2Of5();
    if l < 5 { Pow2Monotone(l + 1, 5); }
    BlockSizeIsPow2(l - 4);
    Pow2Next(l);
  }

  lemma Pow2Of5()
    ensures Pow2(5) == 32
  {
    assert Pow2(5) == 2 * Pow2(4) == 4 * Pow2(3);
  }

  lemma Pow2Next(l: nat)
    ensures Pow2(l + 1) == 2 * Pow2(l)
  {}

  // ---------------------------------------------------------------- what each step does to memory

  /** One list changed, and besides its own links only those of blocks that are on no other list. */
  lemma RepAfterListChange(m: Memory, m': Memory, s: Heap, s': Heap, j: nat, extra: set<nat>)
    requires |s.lists| == s.top + 1 && ListsMatch(s) && Rep(m, s) && j <= s.top
    requires s'.top == s.top && |s'.lists| == |s.lists| && m'.Keys == m.Keys
    requires forall k: nat :: k <= s.top && k != j ==> s'.lists[k] == s.lists[k]
    requires forall k: nat, x: nat :: k <= s.top && k != j && x in s.lists[k] ==> x !in extra
    requires Ring(m', Head(j), s'.lists[j])
    requires forall p :: p in m && p != Head(j) && !(p.Block? && (p.o in s.lists[j] || p.o in extra)) ==>
             SameLinks(m, m', p)
    requires HeadersMatch(m', s')
    ensures Rep(m', s')
  {
    forall k: nat | k <= s.top ensures Ring(m', Head(k), s'.lists[k]) {
      if k != j {
        forall x | x in s.lists[k] ensures SameLinks(m, m', Block(x)) {
          if x in s.lists[j] { ListDisjoint(m, s, j, k, x); }
        }
        RingFrame(m, m', Head(k), s.lists[k]);
      }
    }
    assert SameLinks(m, m', Head(s.top + 1));
  }

  lemma RepAfterTake(m: Memory, m': Memory, s: Heap, o: nat, f: nat)
    requires Inv(s, None) && Rep(m, s) && f <= s.top && |s.lists[f]| > 0
    requires o == s.lists[f][|s.lists[f]| - 1] && s.At(o, f, Free)
    requires m'.Keys == m.Keys && Ring(m', Head(f), s.lists[f][..|s.lists[f]| - 1])
    requires forall p :: p in m ==> m'[p].order == m[p].order && m'[p].free == m[p].free
    requires forall p :: p in m && p != Head(f) && !(p.Block? && p.o in s.lists[f]) ==> m'[p] == m[p]
    ensures Rep(m', Take(s, o, f))
  {
    var l := s.lists[f];
    WithoutSpec(l, o);
    assert l[..|l| - 1] + l[|l|..] == l[..|l| - 1];
    RetagBlock(s, o, f, Free, Transit);
    RepAfterListChange(m, m', s, Take(s, o, f), f, {});
  }

  lemma RepAfterRetag(m: Memory, m': Memory, s: Heap, o: nat, k: nat, g: Tag, g': Tag)
    requires |s.lists| == s.top + 1 && ListsMatch(s) && WellFormed(s.tree, s.top) && Rep(m, s) && s.At(o, k, g)
    requires Block(o) in m && m' == m[Block(o) := m[Block(o)].(free := g' != Live)]
    ensures Rep(m', Retag(s, o, k, g, g'))
  {
    RetagBlock(s, o, k, g, g');
    BlockAlone(s, o, k, g);
    var s' := Retag(s, o, k, g, g');
    forall o': nat, k': nat, g'' | s'.At(o', k', g'')
      ensures Block(o') in m' && m'[Block(o')].order == k' && m'[Block(o')].free == (g'' != Live)
    {
    }
    RingFrame(m, m', Head(0), s.lists[0]);
    RepAfterListChange(m, m', s, s', 0, {});
  }

  /** Before the split, the address of the upper half starts no block and is on no list. */
  lemma UpperHalfUnlisted(m: Memory, s: Heap, o: nat, k: nat)
    requires Inv(s, Some((o, k))) && Rep(m, s) && 2 <= k
    ensures s.At(o, k, Transit) && k <= s.top && Block(o) in m && m[Block(o)].order == k && m[Block(o)].free
    ensures Buddy(o, k - 1) == o + BlockSize(k - 1) && Block(o + BlockSize(k - 1)) in m
    ensures forall j: nat :: j <= s.top ==> o !in s.lists[j] && o + BlockSize(k - 1) !in s.lists[j]
    ensures forall b: nat, j: nat, g :: b == o + BlockSize(k - 1) ==> !s.At(b, j, g)
  {
    assert s.At(o, k, Transit);
    BlockAlone(s, o, k, Transit);
    HasBounds(s.tree, s.top, 0, o, k, Transit);
    MasksAt(o, k - 1);
    var b := o + BlockSize(k - 1);
    forall j: nat, g ensures !s.At(b, j, g) {
      if s.At(b, j, g) { BlocksDisjoint(s.tree, s.top, 0, o, k, Transit, b, j, g); }
    }
    forall j: nat | j <= s.top ensures o !in s.lists[j] && b !in s.lists[j] {
      assert o in s.lists[j] <==> s.At(o, j, Free);
      assert b in s.lists[j] <==> s.At(b, j, Free);
    }
  }

  lemma HeadersAfterHalve(m: Memory, m': Memory, s: Heap, o: nat, k: nat)
    requires Inv(s, Some((o, k))) && Rep(m, s) && 2 <= k && k <= s.top && s.At(o, k, Transit)
    requires var b := o + BlockSize(k - 1);
      && m'.Keys == m.Keys && Block(o) in m && Block(b) in m
      && m'[Block(b)].order == k - 1 && m'[Block(b)].free
      && m'[Block(o)].order == k - 1 && m'[Block(o)].free
      && (forall p :: p in m && p != Block(o) && p != Block(b) ==> m'[p].order == m[p].order && m'[p].free == m[p].free)
    ensures HeadersMatch(m', Halve(s, o, k))
  {
    hide Inv, ListsMatch, Ring, Buddy, Put;
    InvParts(s, Some((o, k)));
    var b := o + BlockSize(k - 1);
    var s' := Halve(s, o, k);
    UpperHalfUnlisted(m, s, o, k);
    BlockAlone(s, o, k, Transit);
    var two := Split(Leaf(Transit), Leaf(Free));
    PutHasAll(s, o, k, two);
    forall o': nat, k': nat, g | s'.At(o', k', g)
      ensures Block(o') in m' && m'[Block(o')].order == k' && m'[Block(o')].free == (g != Live)
    {
      if Within(o', k', o, k) {
        assert Has(two, k, o, o', k', g);
      } else {
        assert s.At(o', k', g);
      }
    }
  }

  lemma RepAfterHalve(m: Memory, m': Memory, s: Heap, o: nat, k: nat)
    requires Inv(s, Some((o, k))) && Rep(m, s) && 2 <= k && k <= s.top && s.At(o, k, Transit)
    requires var b := o + BlockSize(k - 1);
      && m'.Keys == m.Keys
      && Ring(m', Head(k - 1), s.lists[k - 1] + [b])
      && (forall p :: p in m && p != Head(k - 1) && !(p.Block? && (p.o in s.lists[k - 1] || p.o == b)) ==>
         SameLinks(m, m', p))
    requires HeadersMatch(m', Halve(s, o, k))
    ensures Rep(m', Halve(s, o, k))
  {
    hide Inv, HeadersMatch, Heap.At, Put, Buddy, Ring, ListsMatch;
    InvParts(s, Some((o, k)));
    UpperHalfUnlisted(m, s, o, k);
    RepAfterListChange(m, m', s, Halve(s, o, k), k - 1, {o + BlockSize(k - 1)});
  }

  lemma CarveStep(s: Heap, o: nat, f: nat, k: nat)
    requires 1 <= k < f && Inv(s, Some((o, f)))
    ensures s.At(o, f, Transit) && f <= s.top && |s.lists| == s.top + 1 && Inv(Halve(s, o, f), Some((o, f - 1)))
    ensures Carve(s, o, f, k) == Carve(Halve(s, o, f), o, f - 1, k)
  {
    HalveKeepsInv(s, o, f);
  }

  lemma CarveDone(s: Heap, o: nat, k: nat)
    requires 1 <= k && Inv(s, Some((o, k)))
    ensures Carve(s, o, k, k) == s
  {}

  /** BuddyRuns.Malloc unfolded: what it returns once an order has been found, or not. */
  lemma MallocCases(s: Heap, size: nat)
    requires Inv(s, None) && Accepted(size)
    ensures |s.lists| == s.top + 1 && s.top <= 25
    ensures size == 0 || MemNeeded(size) > s.maxSize ==> BuddyRuns.Malloc(s, size) == (s, None)
    ensures MemNeeded(size) == 0 ==> FitOrder(MemNeeded(size)) > |s.lists| && BuddyRuns.Malloc(s, size) == (s, None)
    ensures size != 0 && 0 < MemNeeded(size) <= s.maxSize ==>
      var k := FitOrder(MemNeeded(size));
      && 1 <= k <= |s.lists|
      && var f := FindOrder(s.lists, k);
      if f == |s.lists| then BuddyRuns.Malloc(s, size) == (s, None)
      else
        var o := s.lists[f][|s.lists[f]| - 1];
        && s.At(o, f, Free) && Inv(Take(s, o, f), Some((o, f)))
        && var c := Carve(Take(s, o, f), o, f, k);
        && c.At(o, k, Transit) && BuddyRuns.Malloc(s, size) == (Retag(c, o, k, Transit, Live), Some(o + HEADER_BYTES))
  {
    NoNeedGetsNoOrder();
    if size != 0 && 0 < MemNeeded(size) <= s.maxSize {
      NeedFits(s, size);
      var k := FitOrder(MemNeeded(size));
      var f := FindOrder(s.lists, k);
      if f < |s.lists| {
        var o := s.lists[f][|s.lists[f]| - 1];
        assert s.At(o, f, Free);
        TakeKeepsInv(s, o, f);
        SettleKeepsInv(Carve(Take(s, o, f), o, f, k), o, k);
      }
    }
  }

  lemma CoalesceStep(s: Heap, o: nat, k: nat)
    requires Inv(s, Some((o, k)))
    ensures s.At(o, k, Transit) && k <= s.top && |s.lists| == s.top + 1 && s.top <= 25
    ensures k < s.top && s.At(Buddy(o, k), k, Free) ==>
      Sub(s.tree, s.top, 0, Parent(o, k), k + 1).Some? && Inv(Merge(s, o, k), Some((Parent(o, k), k + 1)))
      && Coalesce(s, o, k) == Coalesce(Merge(s, o, k), Parent(o, k), k + 1)
    ensures k == s.top || !s.At(Buddy(o, k), k, Free) ==>
      Inv(Drop(s, o, k), None) && Coalesce(s, o, k) == Drop(s, o, k)
      && (forall j: nat :: j <= s.top ==> o !in s.lists[j])
  {
    assert s.At(o, k, Transit);
    BlockAlone(s, o, k, Transit);
    if k < s.top && s.At(Buddy(o, k), k, Free) {
      MergeKeepsInv(s, o, k);
    } else {
      DropKeepsInv(s, o, k);
      forall j: nat | j <= s.top ensures o !in s.lists[j] {
        assert o in s.lists[j] <==> s.At(o, j, Free);
        if s.At(o, j, Free) { BlocksDisjoint(s.tree, s.top, 0, o, k, Transit, o, j, Free); }
      }
    }
  }

  /** What the merge loop is about to read: a header of a current block of at most order k. */
  ghost predicate ReadsCurrentBlock(m: Memory, s: Heap, o: nat, k: nat) {
    && Block(Buddy(o, k)) in m
    && (exists j: nat, g :: j <= k && s.At(Buddy(o, k), j, g))
    && ((m[Block(Buddy(o, k))].order == k && m[Block(Buddy(o, k))].free) <==> s.At(Buddy(o, k), k, Free))
  }

  lemma BuddyHeader(m: Memory, s: Heap, o: nat, k: nat)
    requires Inv(s, Some((o, k))) && Rep(m, s)
    ensures k < s.top ==> ReadsCurrentBlock(m, s, o, k)
  {
    if k < s.top {
      assert s.At(o, k, Transit);
      var j, g := BuddyIsCurrentBlock(s.tree, s.top, o, k, Transit);
      SiblingsAt(s.tree, s.top, 0, o, k);
      assert s.At(Buddy(o, k), j, g);
      if j == k { assert g != Transit; }
    }
  }

  /** The parent block starts where one of the two buddies starts, and neither of the two
      is on a list of another order. */
  lemma ParentListed(m: Memory, s: Heap, o: nat, k: nat)
    requires Inv(s, Some((o, k))) && Rep(m, s) && k < s.top && s.At(Buddy(o, k), k, Free)
    ensures s.At(o, k, Transit) && Block(o) in m && m[Block(o)].order == k && m[Block(o)].free
    ensures Block(Buddy(o, k)) in m && m[Block(Buddy(o, k))].order == k && m[Block(Buddy(o, k))].free
    ensures Parent(o, k) == o || Parent(o, k) == Buddy(o, k)
    ensures |s.lists| == s.top + 1 && Buddy(o, k) in s.lists[k]
  {
    assert s.At(o, k, Transit);
    SiblingsAt(s.tree, s.top, 0, o, k);
  }

  lemma RepAfterMerge(m: Memory, m': Memory, s: Heap, o: nat, k: nat)
    requires Inv(s, Some((o, k))) && Rep(m, s) && k < s.top && s.At(Buddy(o, k), k, Free)
    requires s.At(o, k, Transit) && Sub(s.tree, s.top, 0, Parent(o, k), k + 1).Some?
    requires m'.Keys == m.Keys && Block(Parent(o, k)) in m
    requires Ring(m', Head(k), Without(s.lists[k], Buddy(o, k)))
    requires m'[Block(Parent(o, k))].order == k + 1 && m'[Block(Parent(o, k))].free
    requires forall p :: p in m && p != Block(Parent(o, k)) ==> m'[p].order == m[p].order && m'[p].free == m[p].free
    requires forall p :: p in m && p != Head(k) && !(p.Block? && p.o in s.lists[k]) ==> SameLinks(m, m', p)
    ensures Rep(m', Merge(s, o, k))
  {
    var p, b := Parent(o, k), Buddy(o, k);
    var s' := Merge(s, o, k);
    SiblingsAt(s.tree, s.top, 0, o, k);
    PairAlone(s, o, k);
    PutHasAll(s, p, k + 1, Leaf(Transit));
    forall o': nat, k': nat, g | s'.At(o', k', g)
      ensures Block(o') in m' && m'[Block(o')].order == k' && m'[Block(o')].free == (g != Live)
    {
      if Within(o', k', p, k + 1) {
        assert o' == p && k' == k + 1 && g == Transit;
      } else {
        assert s.At(o', k', g);
      }
    }
    RepAfterListChange(m, m', s, s', k, {});
  }

  lemma RepAfterDrop(m: Memory, m': Memory, s: Heap, o: nat, k: nat)
    requires Inv(s, Some((o, k))) && Rep(m, s) && s.At(o, k, Transit) && k <= s.top
    requires m'.Keys == m.Keys && Ring(m', Head(k), s.lists[k] + [o])
    requires forall p :: p in m ==> m'[p].order == m[p].order && m'[p].free == m[p].free
    requires forall p :: p in m && p != Head(k) && p != Block(o) && !(p.Block? && p.o in s.lists[k]) ==> m'[p] == m[p]
    ensures Rep(m', Drop(s, o, k))
  {
    RetagBlock(s, o, k, Transit, Free);
    forall j: nat, x: nat | j <= s.top && j != k && x in s.lists[j] ensures x != o {
      assert s.At(x, j, Free);
    }
    RepAfterListChange(m, m', s, Drop(s, o, k), k, {o});
  }

  lemma InitialRep(m: Memory, top: nat, maxSize: nat)
    requires Sized(top, maxSize) && forall k: nat :: k <= top ==> Ring(m, Head(k), Initial(top, maxSize).lists[k])
    requires Head(top + 1) in m && m[Head(top + 1)].prev == Null && m[Head(top + 1)].next == Null
    requires forall o: nat :: o < maxSize ==> Block(o) in m
    requires Block(0) in m && m[Block(0)].order == top && m[Block(0)].free
    ensures Rep(m, Initial(top, maxSize))
  {
    hide Ring;
  }

  /** What the list operations need to know about list k. */
  lemma ListAt(m: Memory, s: Heap, k: nat, pend: Option<(nat, nat)>)
    requires Inv(s, pend) && Rep(m, s) && k <= s.top
    ensures Ring(m, Head(k), s.lists[k]) && Distinct(s.lists[k]) && Head(k) in m
    ensures m[Head(k)].prev != Null && m[Head(k)].next != Null
  {
    var l := s.lists[k];
    assert LinkedAt(m, Nth(Head(k), l, 0), Nth(Head(k), l, 1));
    assert LinkedAt(m, Nth(Head(k), l, |l|), Nth(Head(k), l, |l| + 1));
  }

  /** The list after the last one, which malloc looks at when nothing was found, is zeroed. */
  lemma PastLast(m: Memory, s: Heap)
    requires Rep(m, s)
    ensures Head(s.top + 1) in m && m[Head(s.top + 1)].prev == Null && m[Head(s.top + 1)].next == Null
  {}

  lemma PayloadIsNoBlock(s: Heap, o: nat, k: nat, p: nat)
    requires Inv(s, None) && s.At(o, k, Live) && o < p < o + BlockSize(k)
    ensures p < BlockSize(s.top) && forall j: nat, g :: !s.At(p, j, g)
    ensures forall j: nat :: j <= s.top ==> p !in s.lists[j]
  {
    HasBounds(s.tree, s.top, 0, o, k, Live);
    forall j: nat, g ensures !s.At(p, j, g) {
      if s.At(p, j, g) { BlocksDisjoint(s.tree, s.top, 0, o, k, Live, p, j, g); }
    }
    forall j: nat | j <= s.top ensures p !in s.lists[j] {
      assert p in s.lists[j] <==> s.At(p, j, Free);
    }
  }

  class Buddies {
    var mem: Memory
    var currentBlocks: nat
    var blockMaxSize: nat
    ghost var model: Heap

    ghost predicate Valid()
      reads this
    {
      && Inv(model, None)
      && Rep(mem, model)
      && currentBlocks == model.top + 1
      && blockMaxSize == model.maxSize
    }

    ghost predicate IsLive(o: nat)
      reads this`model
    {
      exists k: nat :: model.At(o, k, Live)
    }

    // -------------------------------------------------------------- buddyBTree.c

    method InitializeList(list: Ptr)
      requires list in mem
      modifies this`mem
      ensures Ring(mem, list, [])
      ensures mem.Keys == old(mem).Keys && forall p :: p in mem && p != list ==> mem[p] == old(mem)[p]
    {
      mem := mem[list := mem[list].(prev := list)];
      mem := mem[list := mem[list].(next := list)];
      assert LinkedAt(mem, Nth(list, [], 0), Nth(list, [], 1));
    }

    method PushToList(list: Ptr, entry: Ptr, ghost l: seq<nat>)
      requires list.Head? && entry.Block? && entry in mem && entry.o !in l && Distinct(l)
      requires Ring(mem, list, l)
      modifies this`mem
      ensures Ring(mem, list, l + [entry.o])
      ensures mem.Keys == old(mem).Keys
      ensures forall p :: p in mem ==> mem[p].order == old(mem)[p].order && mem[p].free == old(mem)[p].free
      ensures forall p :: p in mem && p != list && p != entry && !(p.Block? && p.o in l) ==> mem[p] == old(mem)[p]
    {
      ghost var n := |l|;
      assert LinkedAt(mem, Nth(list, l, n), Nth(list, l, n + 1));
      assert LinkedAt(mem, Nth(list, l, 0), Nth(list, l, 1));
      assert n > 0 ==> l[n - 1] in l;
      var prev := mem[list].prev;
      mem := mem[entry := mem[entry].(prev := prev)];
      mem := mem[entry := mem[entry].(next := list)];
      mem := mem[prev := mem[prev].(next := entry)];
      mem := mem[list := mem[list].(prev := entry)];
      ghost var l' := l + [entry.o];
      forall i | 0 <= i <= |l'| ensures LinkedAt(mem, Nth(list, l', i), Nth(list, l', i + 1)) {
        if i < n {
          assert LinkedAt(old(mem), Nth(list, l, i), Nth(list, l, i + 1));
          assert l[i] in l;
          assert i > 0 ==> l[i - 1] in l;
        }
      }
    }

    method RemoveFromList(entry: Ptr, ghost list: Ptr, ghost l: seq<nat>, ghost at: nat)
      requires list.Head? && at < |l| && entry == Block(l[at]) && Distinct(l)
      requires Ring(mem, list, l)
      modifies this`mem
      ensures Ring(mem, list, l[..at] + l[at + 1..])
      ensures mem.Keys == old(mem).Keys
      ensures forall p :: p in mem ==> mem[p].order == old(mem)[p].order && mem[p].free == old(mem)[p].free
      ensures forall p :: p in mem && p != list && !(p.Block? && p.o in l) ==> mem[p] == old(mem)[p]
    {
      assert LinkedAt(mem, Nth(list, l, at), Nth(list, l, at + 1));
      assert LinkedAt(mem, Nth(list, l, at + 1), Nth(list, l, at + 2));
      assert l[at] in l && (at > 0 ==> l[at - 1] in l) && (at + 1 < |l| ==> l[at + 1] in l);
      var prev := mem[entry].prev;
      var next := mem[entry].next;
      mem := mem[prev := mem[prev].(next := next)];
      mem := mem[next := mem[next].(prev := prev)];
      ghost var l' := l[..at] + l[at + 1..];
      forall i | 0 <= i <= |l'| ensures LinkedAt(mem, Nth(list, l', i), Nth(list, l', i + 1)) {
        var j := if i <= at then i else i + 1;
        assert LinkedAt(old(mem), Nth(list, l, j), Nth(list, l, j + 1));
        assert Nth(list, l', i) == Nth(list, l, j);
      }
    }

    method ListIsEmpty(list: Ptr, ghost l: seq<nat>) returns (b: bool)
      requires list.Head? && Ring(mem, list, l)
      ensures b <==> l == []
    {
      assert LinkedAt(mem, Nth(list, l, |l|), Nth(list, l, |l| + 1));
      b := mem[list].prev == list;
    }

    method PopFromList(list: Ptr, ghost l: seq<nat>) returns (back: Ptr)
      requires list.Head? && Ring(mem, list, l) && Distinct(l)
      modifies this`mem
      ensures l == [] ==> back == Null && mem == old(mem)
      ensures l != [] ==> back == Block(l[|l| - 1]) && Ring(mem, list, l[..|l| - 1])
      ensures mem.Keys == old(mem).Keys
      ensures forall p :: p in mem ==> mem[p].order == old(mem)[p].order && mem[p].free == old(mem)[p].free
      ensures forall p :: p in mem && p != list && !(p.Block? && p.o in l) ==> mem[p] == old(mem)[p]
    {
      assert LinkedAt(mem, Nth(list, l, |l|), Nth(list, l, |l| + 1));
      back := mem[list].prev;
      if back == list {
        return Null;
      }
      RemoveFromList(back, list, l, |l| - 1);
      assert l[..|l| - 1] + l[|l|..] == l[..|l| - 1];
    }

    // -------------------------------------------------------------- buddy.c, helpers

    /** log2: shift right until nothing is left. The argument is cut to 32 bits. */
    static method Log2(number: nat) returns (result: int)
      ensures result == Log2Of(number % TWO_TO_THE_32)
    {
      var rest: nat := number % TWO_TO_THE_32;
      if rest == 0 {
        return -1;
      }
      result := -1;
      while rest != 0
        invariant result + 1 + Log2Of(rest) == Log2Of(number % TWO_TO_THE_32)
      {
        result := result + 1;
        rest := rest / 2;
      }
    }

    static method GetMinimumFittingOrder(memNeeded: nat) returns (order: nat)
      requires memNeeded < TWO_TO_THE_64
      ensures order == FitOrder(memNeeded)
    {
      var l := Log2(memNeeded);
      var minOrder := if l < 0 then l + TWO_TO_THE_64 else l;
      if minOrder < MIN_ALLOC_LOG2 {
        return 0;
      }
      minOrder := minOrder - MIN_ALLOC_LOG2;
      if memNeeded != 0 && And(memNeeded, memNeeded - 1) == 0 {
        return minOrder % 256;
      }
      return (minOrder + 1) % 256;
    }

    method GetFreeBlock(minBlockRequired: nat) returns (freeBlock: int)
      requires Valid()
      ensures |model.lists| == currentBlocks && -1 <= freeBlock <= currentBlocks
      ensures 0 <= freeBlock < currentBlocks ==> model.lists[freeBlock] != []
      ensures freeBlock == if minBlockRequired > currentBlocks then -1 else FindOrder(model.lists, minBlockRequired)
    {
      freeBlock := minBlockRequired;
      while freeBlock < currentBlocks
        invariant minBlockRequired <= freeBlock && (freeBlock <= currentBlocks || freeBlock == minBlockRequired)
        invariant freeBlock <= currentBlocks ==>
                  FindOrder(model.lists, freeBlock) == FindOrder(model.lists, minBlockRequired)
      {
        var empty := ListIsEmpty(Head(freeBlock), model.lists[freeBlock]);
        if !empty { break; }
        freeBlock := freeBlock + 1;
      }
      if freeBlock > currentBlocks {
        freeBlock := -1;
      }
    }

    method GetBuddyBlock(node: Ptr) returns (buddy: Ptr)
      requires node.Block? && node in mem
      ensures buddy == Block(Buddy(node.o, mem[node].order))
      ensures var k := mem[node].order;
        node.o % BlockSize(k) == 0 ==> Halves(node.o, buddy.o, Parent(node.o, k), k)
    {
      var order := mem[node].order;
      if node.o % BlockSize(order) == 0 { MasksAreHalves(node.o, order); }
      buddy := Block(Xor(node.o, Pow2(MIN_ALLOC_LOG2 + order)));
    }

    method GetBlockAddress(node: Ptr) returns (parent: Ptr)
      requires node.Block? && node in mem
      ensures parent == Block(Parent(node.o, mem[node].order))
      ensures var k := mem[node].order;
        node.o % BlockSize(k) == 0 ==> Halves(node.o, Buddy(node.o, k), parent.o, k)
    {
      var order := mem[node].order;
      if node.o % BlockSize(order) == 0 { MasksAreHalves(node.o, order); }
      parent := Block(AndNot(node.o, Pow2(MIN_ALLOC_LOG2 + order)));
    }

    method AddNodeToOrder(blockList: Ptr, node: Ptr, blockOrder: nat, ghost l: seq<nat>)
      requires blockList.Head? && node.Block? && node in mem && node.o !in l && Distinct(l)
      requires Ring(mem, blockList, l)
      modifies this`mem
      ensures Ring(mem, blockList, l + [node.o])
      ensures mem.Keys == old(mem).Keys
      ensures mem[node].order == blockOrder && mem[node].free
      ensures forall p :: p in mem && p != node ==> mem[p].order == old(mem)[p].order && mem[p].free == old(mem)[p].free
      ensures forall p :: p in mem && p != blockList && p != node && !(p.Block? && p.o in l) ==> mem[p] == old(mem)[p]
    {
      mem := mem[node := mem[node].(order := blockOrder)];
      mem := mem[node := mem[node].(free := true)];
      RingFrame(old(mem), mem, blockList, l);
      PushToList(blockList, node, l);
    }

    // -------------------------------------------------------------- buddy.c, interface

    /** The loop of initializeMemoryManager over the array of lists. */
    method InitializeLists()
      requires forall k: nat :: k < currentBlocks ==> Head(k) in mem
      modifies this`mem
      ensures mem.Keys == old(mem).Keys
      ensures forall k: nat :: k < currentBlocks ==> Ring(mem, Head(k), [])
      ensures forall p :: p in mem && !(p.Head? && p.k < currentBlocks) ==> mem[p] == old(mem)[p]
    {
      for i := 0 to currentBlocks
        invariant mem.Keys == old(mem).Keys
        invariant forall k: nat :: k < i ==> Ring(mem, Head(k), [])
        invariant forall p :: p in mem && !(p.Head? && p.k < i) ==> mem[p] == old(mem)[p]
      {
        ghost var before := mem;
        InitializeList(Head(i));
        mem := mem[Head(i) := mem[Head(i)].(free := false)];
        mem := mem[Head(i) := mem[Head(i)].(order := i)];
        forall k: nat | k < i + 1 ensures Ring(mem, Head(k), []) {
          if k < i { RingFrame(before, mem, Head(k), []); }
          else { assert LinkedAt(mem, Nth(Head(i), [], 0), Nth(Head(i), [], 1)); }
        }
      }
    }

    /** raw is the memory before the call: any bytes in the heap, zeroes in the static array. */
    constructor InitializeMemoryManager(raw: Memory, heapSize: nat)
      requires 32 <= heapSize < 0x4000_0000
      requires forall o: nat :: o < heapSize ==> Block(o) in raw
      requires forall k: nat :: k < MAX_BLOCK_COUNT ==>
               Head(k) in raw && raw[Head(k)].prev == Null && raw[Head(k)].next == Null
      ensures Valid() && model == Initial(TopOrder(heapSize), heapSize)
    {
      hide Ring, Inv, ListsMatch, Log2Of, Rep, BlockSize;
      mem := raw;
      blockMaxSize := heapSize;
      new;
      HeapSizeOrder(heapSize);
      var l := Log2(heapSize);
      currentBlocks := l - MIN_ALLOC_LOG2 + 1;
      currentBlocks := Min(currentBlocks, MAX_BLOCK_COUNT);
      ghost var top := currentBlocks - 1;
      InitializeLists();
      ghost var before := mem;
      AddNodeToOrder(Head(currentBlocks - 1), Block(0), currentBlocks - 1, []);
      model := Initial(top, heapSize);
      InitialInv(top, heapSize);
      forall k: nat | k <= top ensures Ring(mem, Head(k), model.lists[k]) {
        if k < top { RingFrame(before, mem, Head(k), []); } else { assert [] + [0] == model.lists[k]; }
      }
      InitialRep(mem, top, heapSize);
    }

    /** popFromList on a list of the array that is not empty. */
    method PopBlock(freeBlock: nat) returns (node: Ptr, ghost s: Heap)
      requires Valid() && freeBlock < currentBlocks && model.lists[freeBlock] != []
      modifies this`mem
      ensures var l := old(model.lists[freeBlock]);
        && node == Block(l[|l| - 1]) && model.At(node.o, freeBlock, Tag.Free)
        && s == Take(model, node.o, freeBlock) && s.top == model.top && s.maxSize == model.maxSize
           && Inv(s, Some((node.o, freeBlock))) && Rep(mem, s)
    {
      ghost var l := model.lists[freeBlock];
      ghost var o := l[|l| - 1];
      assert model.At(o, freeBlock, Tag.Free);
      node := PopFromList(Head(freeBlock), l);
      TakeKeepsInv(model, o, freeBlock);
      s := Take(model, o, freeBlock);
      RepAfterTake(old(mem), mem, model, o, freeBlock);
    }

    /** The splitting loop of malloc: the upper half of each block goes to its list. */
    method SplitBlocks(node: Ptr, first: nat, lowestFittingOrder: nat, ghost s1: Heap) returns (ghost s: Heap)
      requires node.Block? && 1 <= lowestFittingOrder <= first
      requires Inv(s1, Some((node.o, first))) && Rep(mem, s1)
      modifies this`mem
      ensures s == Carve(s1, node.o, first, lowestFittingOrder) && Rep(mem, s)
    {
      hide Inv, Rep, HeadersMatch, ListsMatch, Heap.At, Buddy, Parent, Carve, Halve, Coalesce, Merge, Drop, Take,
           Retag, Without;
      s := s1;
      var freeBlock := first;
      ghost var o := node.o;
      while lowestFittingOrder < freeBlock
        invariant lowestFittingOrder <= freeBlock <= first
        invariant Inv(s, Some((o, freeBlock))) && Rep(mem, s)
        invariant Carve(s, o, freeBlock, lowestFittingOrder) == Carve(s1, o, first, lowestFittingOrder)
      {
        ghost var before := mem;
        CarveStep(s, o, freeBlock, lowestFittingOrder);
        UpperHalfUnlisted(mem, s, o, freeBlock);
        ListAt(mem, s, freeBlock - 1, Some((o, freeBlock)));
        mem := mem[node := mem[node].(order := mem[node].order - 1)];
        RingFrame(before, mem, Head(freeBlock - 1), s.lists[freeBlock - 1]);
        var buddy := GetBuddyBlock(node);
        AddNodeToOrder(Head(freeBlock - 1), buddy, freeBlock - 1, s.lists[freeBlock - 1]);
        HeadersAfterHalve(before, mem, s, o, freeBlock);
        RepAfterHalve(before, mem, s, o, freeBlock);
        s := Halve(s, o, freeBlock);
        freeBlock := freeBlock - 1;
      }
      CarveDone(s, o, freeBlock);
    }

    /** The last write of malloc: the working block is handed out. */
    method MarkLive(node: Ptr, k: nat, ghost s: Heap) returns (ghost s': Heap)
      requires node.Block? && Inv(s, Some((node.o, k))) && Rep(mem, s)
      modifies this`mem
      ensures s.At(node.o, k, Transit) && s'.top == s.top && s'.maxSize == s.maxSize
              && s' == Retag(s, node.o, k, Transit, Live)
      ensures Inv(s', None) && Rep(mem, s')
    {
      SettleKeepsInv(s, node.o, k);
      mem := mem[node := mem[node].(free := false)];
      RepAfterRetag(old(mem), mem, s, node.o, k, Transit, Live);
      s' := Retag(s, node.o, k, Transit, Live);
    }

    /** The body of malloc's last if: pop a block, split it down, and mark it live. */
    method HandOut(freeBlock: nat, lowestFittingOrder: nat) returns (node: Ptr)
      requires Valid() && freeBlock < currentBlocks && model.lists[freeBlock] != []
      requires 1 <= lowestFittingOrder <= freeBlock
      modifies this`mem, this`model
      ensures var s := old(model);
        var l := s.lists[freeBlock];
        && node == Block(l[|l| - 1]) && s.At(node.o, freeBlock, Tag.Free)
        && Inv(Take(s, node.o, freeBlock), Some((node.o, freeBlock)))
        && var c := Carve(Take(s, node.o, freeBlock), node.o, freeBlock, lowestFittingOrder);
        c.At(node.o, lowestFittingOrder, Transit) && model == Retag(c, node.o, lowestFittingOrder, Transit, Live)
      ensures Valid()
    {
      hide Inv, Rep, HeadersMatch, ListsMatch, Heap.At, Buddy, Parent, Carve, Halve, Coalesce, Merge, Drop, Take,
           Retag, Without;
      ghost var s;
      node, s := PopBlock(freeBlock);
      s := SplitBlocks(node, freeBlock, lowestFittingOrder, s);
      model := MarkLive(node, lowestFittingOrder, s);
    }

    method Malloc(size: nat) returns (p: Option<nat>)
      requires Valid() && Accepted(size)
      modifies this`mem, this`model
      ensures Valid()
      ensures (model, p) == BuddyRuns.Malloc(old(model), size)
    {
      hide BuddyRuns.Malloc, FitOrder, FindOrder, MemNeeded, Accepted, Inv, Rep, HeadersMatch, ListsMatch, Heap.At,
           Buddy, Parent, Carve, Halve, Coalesce, Merge, Drop, Take, Retag, Without;
      MallocCases(model, size);
      var memNeeded := MemNeeded(size);
      if size == 0 || memNeeded > blockMaxSize {
        return None;
      }
      var lowestFittingOrder := GetMinimumFittingOrder(memNeeded);
      var freeBlock := GetFreeBlock(lowestFittingOrder);
      if freeBlock == -1 {
        return None;
      }
      if freeBlock < currentBlocks {
        ListAt(mem, model, freeBlock, None);
      } else {
        PastLast(mem, model);
      }
      if mem[Head(freeBlock)].prev != Null || mem[Head(freeBlock)].next != Null {
        var node := HandOut(freeBlock, lowestFittingOrder);
        return Some(node.o + HEADER_BYTES);
      }
      return None;
    }

    /** The body of free's loop: unlink the free buddy, go to the parent, and find its buddy. */
    method MergeBuddies(node: Ptr, buddy: Ptr, ghost s: Heap, ghost k: nat)
        returns (parent: Ptr, parentBuddy: Ptr, ghost s': Heap)
      requires node.Block? && Inv(s, Some((node.o, k))) && Rep(mem, s)
      requires k < s.top && buddy == Block(Buddy(node.o, k)) && s.At(Buddy(node.o, k), k, Tag.Free)
      modifies this`mem
      ensures s.At(node.o, k, Transit) && Sub(s.tree, s.top, 0, Parent(node.o, k), k + 1).Some?
      ensures s' == Merge(s, node.o, k) && Rep(mem, s')
      ensures parent == Block(Parent(node.o, k)) && Inv(s', Some((parent.o, k + 1)))
      ensures parent in mem && mem[parent].order == k + 1
      ensures parentBuddy == Block(Buddy(parent.o, k + 1))
    {
      hide Inv, Rep, HeadersMatch, ListsMatch, Heap.At, Buddy, Parent, Carve, Halve, Coalesce, Merge, Drop, Take,
           Retag, Without, Ring;
      ghost var o: nat := node.o;
      MergeKeepsInv(s, o, k);
      ParentListed(mem, s, o, k);
      ListAt(mem, s, k, Some((o, k)));
      ghost var l := s.lists[k];
      ghost var at :| 0 <= at < |l| && l[at] == Buddy(o, k);
      WithoutAt(l, Buddy(o, k), at);
      RemoveFromList(buddy, Head(k), l, at);
      parent := GetBlockAddress(node);
      RingInMemory(mem, Head(k), Without(l, Buddy(o, k)));
      RingKeptByOrder(mem, parent, mem[parent].order + 1, Head(k), Without(l, Buddy(o, k)));
      mem := mem[parent := mem[parent].(order := mem[parent].order + 1)];
      parentBuddy := GetBuddyBlock(parent);
      RepAfterMerge(old(mem), mem, s, o, k);
      s' := Merge(s, o, k);
    }

    /** The first write of free: the block is no longer live, and not yet on a list. */
    method MarkFree(freeNode: Ptr) returns (ghost k: nat, ghost s: Heap)
      requires Valid() && freeNode.Block? && IsLive(freeNode.o)
      modifies this`mem
      ensures freeNode in mem && mem[freeNode].order == k == old(mem[freeNode].order) && k <= model.top
      ensures model.At(freeNode.o, k, Live) && s == Retag(model, freeNode.o, k, Live, Transit)
      ensures Inv(s, Some((freeNode.o, k))) && Rep(mem, s) && s.top == model.top && s.maxSize == model.maxSize
    {
      ghost var o: nat := freeNode.o;
      k :| model.At(o, k, Live);
      assert mem[freeNode].order == k;
      mem := mem[freeNode := mem[freeNode].(free := true)];
      GrabKeepsInv(model, o, k);
      RepAfterRetag(old(mem), mem, model, o, k, Live, Transit);
      s := Retag(model, o, k, Live, Transit);
    }

    /** The push at the end of free, once no free buddy is left to merge with. */
    method PushFreed(freeNode: Ptr, ghost s: Heap, ghost k: nat)
      requires freeNode.Block? && Inv(s, Some((freeNode.o, k))) && Rep(mem, s)
      requires freeNode in mem && mem[freeNode].order == k
      requires s.top == currentBlocks - 1 && s.maxSize == blockMaxSize
      requires k == s.top || !s.At(Buddy(freeNode.o, k), k, Tag.Free)
      modifies this`mem, this`model
      ensures Valid() && model == Coalesce(s, freeNode.o, k)
    {
      hide Inv, Rep, HeadersMatch, ListsMatch, Heap.At, Buddy, Coalesce, Ring, Distinct;
      ghost var o: nat := freeNode.o;
      CoalesceStep(s, o, k);
      ListAt(mem, s, k, Some((o, k)));
      ghost var before := mem;
      PushToList(Head(mem[freeNode].order), freeNode, s.lists[k]);
      RepAfterDrop(before, mem, s, o, k);
      model := Drop(s, o, k);
    }

    method Free(block: Option<nat>)
      requires Valid()
      requires block.Some? ==> block.value >= HEADER_BYTES && IsLive(block.value - HEADER_BYTES)
      modifies this`mem, this`model
      ensures Valid()
      ensures block == None ==> model == old(model)
      ensures block.Some? ==>
                var o := block.value - HEADER_BYTES;
                var k := old(mem[Block(o)].order);
                old(model.At(o, k, Live)) && model == FreeBlock(old(model), o, k)
    {
      hide Inv, Rep, HeadersMatch, ListsMatch, Heap.At, Buddy, Parent, Carve, Halve, Coalesce, Merge, Drop, Take,
           Retag, Without;
      if block == None {
        return;
      }
      var freeNode := Block(block.value - HEADER_BYTES);
      ghost var o0: nat := block.value - HEADER_BYTES;
      ghost var k: nat;
      ghost var s;
      k, s := MarkFree(freeNode);
      ghost var s0, k0 := s, k;
      ghost var o: nat := o0;
      var freeBuddyBlock := GetBuddyBlock(freeNode);
      BuddyHeader(mem, s, o0, k);

      // && stops at the first false conjunct: at the maximal order the buddy is not read.
      while mem[freeNode].order != currentBlocks - 1
            && mem[freeBuddyBlock].order == mem[freeNode].order
            && mem[freeBuddyBlock].free
        invariant freeNode == Block(o) && Inv(s, Some((o as nat, k as nat))) && Rep(mem, s)
        invariant s.top == currentBlocks - 1 && s.maxSize == blockMaxSize && k <= s.top
        invariant freeNode in mem && mem[freeNode].order == k
        invariant freeBuddyBlock == Block(Buddy(o, k))
        // The header the guard reads is that of a current block, or is not read at all.
        invariant k < s.top ==> ReadsCurrentBlock(mem, s, o, k)
        invariant Coalesce(s, o, k) == Coalesce(s0, o0, k0)
        decreases s.top - k
      {
        CoalesceStep(s, o, k);
        freeNode, freeBuddyBlock, s := MergeBuddies(freeNode, freeBuddyBlock, s, k);
        o, k := Parent(o, k), k + 1;
        BuddyHeader(mem, s, o, k);
      }

      PushFreed(freeNode, s, k);
    }

    /** The user of a live block may store anything in it past its header; whatever headers
        such bytes look like, no block of the allocator changes. */
    method UserWrite(o: nat, k: nat, p: nat, junk: Header)
      requires Valid() && model.At(o, k, Live) && o + HEADER_BYTES <= p < o + BlockSize(k)
      modifies this`mem
      ensures Valid() && mem == old(mem)[Block(p) := junk]
    {
      mem := mem[Block(p) := junk];
      PayloadIsNoBlock(model, o, k, p);
      forall j: nat | j <= model.top ensures Ring(mem, Head(j), model.lists[j]) {
        RingFrame(old(mem), mem, Head(j), model.lists[j]);
      }
    }
  }
}

/** malloc and free of the buddy allocator as functions on abstract heaps, and what
    every run of them keeps. */
module BuddyRuns {
  import opened Wrappers
  import opened Bits
  import opened BuddyTree
  import opened BuddyModel

  // ---------------------------------------------------------------- malloc

  /** getFreeBlock: the first order from k on whose list is not empty, else currentBlocks. */
  function FindOrder(lists: seq<seq<nat>>, k: nat): (f: nat)
    requires k <= |lists|
    ensures k <= f <= |lists|
    ensures f < |lists| ==> lists[f] != []
    ensures forall j :: k <= j < f ==> lists[j] == []
    decreases |lists| - k
  {
    if k < |lists| && lists[k] == [] then FindOrder(lists, k + 1) else k
  }

  /** The splitting loop: from the working block of order f down to order k. */
  ghost function Carve(s: Heap, o: nat, f: nat, k: nat): (r: Heap)
    requires 1 <= k <= f && Inv(s, Some((o, f)))
    ensures Inv(r, Some((o, k))) && SameLive(s, r) && r.top == s.top && r.maxSize == s.maxSize
    decreases f
  {
    if f == k then s
    else
      HalveKeepsInv(s, o, f);
      Carve(Halve(s, o, f), o, f - 1, k)
  }

  /** With no bytes needed, after a wrap, the order is 252 and no list is looked at. */
  ghost predicate Serves(s: Heap, size: nat) {
    0 < size && 0 < MemNeeded(size) <= s.maxSize
  }

  lemma HeapBelow30Bits(top: nat, maxSize: nat)
    requires Sized(top, maxSize)
    ensures maxSize < 0x4000_0000 && maxSize < BlockSize(top + 1)
  {
    var big := 26;
    BlockSizeIsPow2(big);
    Pow2Of30();
    BlockSizeMonotone(top + 1, big);
  }

  lemma NeedFits(s: Heap, size: nat)
    requires Sized(s.top, s.maxSize) && Serves(s, size) && Accepted(size)
    ensures var need := MemNeeded(size);
      && 1 <= FitOrder(need) <= s.top + 1
      && BlockSize(FitOrder(need) - 1) < need <= BlockSize(FitOrder(need)) < 2 * need
  {
    hide FitOrder, MemNeeded, Sized;
    HeapBelow30Bits(s.top, s.maxSize);
    var need := MemNeeded(size);
    var k := FitOrder(need);
    FitOrderTight(need);
    if k > s.top + 1 { BlockSizeMonotone(s.top + 1, k - 1); }
  }

  lemma NeedIs(size: nat)
    requires size + HEADER_BYTES < TWO_TO_THE_64
    ensures MemNeeded(size) == size + HEADER_BYTES && Accepted(size)
  {}

  /** malloc. The pointer returned is 24 bytes past the start of the block. */
  ghost function Malloc(s: Heap, size: nat): (r: (Heap, Option<nat>))
    requires Inv(s, None) && Accepted(size)
    ensures Inv(r.0, None) && r.0.top == s.top && r.0.maxSize == s.maxSize
  {
    if !Serves(s, size) then (s, None)
    else
      NeedFits(s, size);
      var k := FitOrder(MemNeeded(size));
      var f := FindOrder(s.lists, k);
      if f == |s.lists| then (s, None)
      else
        var o := s.lists[f][|s.lists[f]| - 1];
        assert s.At(o, f, Free);
        TakeKeepsInv(s, o, f);
        var c := Carve(Take(s, o, f), o, f, k);
        SettleKeepsInv(c, o, k);
        (Retag(c, o, k, Transit, Live), Some(o + HEADER_BYTES))
  }

  /** What Carve does to the tree in one go. */
  lemma {:induction false} CarveIsSpine(s: Heap, o: nat, f: nat, k: nat)
    requires 1 <= k <= f && Inv(s, Some((o, f)))
    ensures s.At(o, f, Transit)
    ensures Carve(s, o, f, k).tree == Put(s.tree, s.top, 0, o, f, Spine(f, k, Transit))
    decreases f
  {
    assert s.At(o, f, Transit);
    if f == k {
      PutSame(s.tree, s.top, 0, o, f);
    } else {
      HalveKeepsInv(s, o, f);
      var two := Split(Leaf(Transit), Leaf(Free));
      var s1 := Halve(s, o, f);
      CarveIsSpine(s1, o, f - 1, k);
      assert s1.tree == Put(s.tree, s.top, 0, o, f, two);
      PutTwice(s.tree, s.top, 0, o, f, two, o, f - 1, Spine(f - 1, k, Transit));
      assert Put(two, f, o, o, f - 1, Spine(f - 1, k, Transit)) == Spine(f, k, Transit);
    }
  }

  /** What Carve does to the lists in one go: each order it passes gets one block. */
  lemma {:induction false} CarveLists(s: Heap, o: nat, f: nat, k: nat, j: nat)
    requires 1 <= k <= f && Inv(s, Some((o, f))) && j < |s.lists|
    ensures var r := Carve(s, o, f, k);
      |r.lists| == |s.lists| && r.lists[j] == if k <= j < f then s.lists[j] + [o + BlockSize(j)] else s.lists[j]
    decreases f
  {
    hide Inv, SameLive, Put, BlockSize;
    if f == k {
    } else {
      HalveKeepsInv(s, o, f);
      HalveLists(s, o, f);
      CarveLists(Halve(s, o, f), o, f - 1, k, j);
    }
  }

  lemma HalveLists(s: Heap, o: nat, f: nat)
    requires 2 <= f && Inv(s, Some((o, f)))
    ensures s.At(o, f, Transit) && f < |s.lists|
    ensures Halve(s, o, f).lists == s.lists[f - 1 := s.lists[f - 1] + [o + BlockSize(f - 1)]]
  {
    HalveKeepsInv(s, o, f);
  }

  lemma {:induction false} PutSame(t: Tree, K: nat, a: nat, o: nat, k: nat)
    requires Sub(t, K, a, o, k).Some?
    ensures Put(t, K, a, o, k, Sub(t, K, a, o, k).value) == t
    decreases t
  {
    if k == K {
    } else {
      var mid := a + BlockSize(K - 1);
      if o < mid { PutSame(t.left, K - 1, a, o, k); } else { PutSame(t.right, K - 1, mid, o, k); }
    }
  }

  lemma {:induction false} SpineHead(f: nat, k: nat, o: nat, tag: Tag)
    requires k <= f
    ensures Sub(Spine(f, k, tag), f, o, o, k) == Some(Leaf(tag))
    ensures forall g :: Put(Spine(f, k, tag), f, o, o, k, Leaf(g)) == Spine(f, k, g)
    decreases f
  {
    if k == f {
    } else {
      SpineHead(f - 1, k, o, tag);
    }
  }

  /** malloc returns NULL exactly when no free block could hold the request with its header. */
  lemma MallocComplete(s: Heap, size: nat)
    requires Inv(s, None) && 0 < size && size + HEADER_BYTES <= s.maxSize
    ensures Accepted(size)
    ensures Malloc(s, size).1 == None <==>
              forall o: nat, f: nat :: s.At(o, f, Free) ==> BlockSize(f) < size + HEADER_BYTES
  {
    hide Inv, FitOrder, MemNeeded, Accepted, BlockSize, Carve, Take, Retag;
    InvParts(s, None);
    HeapBelow30Bits(s.top, s.maxSize);
    NeedIs(size);
    NeedFits(s, size);
    var k := FitOrder(MemNeeded(size));
    var f := FindOrder(s.lists, k);
    if f < |s.lists| {
      var o := s.lists[f][|s.lists[f]| - 1];
      assert s.At(o, f, Free);
      BlockSizeMonotone(k, f);
    } else {
      forall o: nat, j: nat | s.At(o, j, Free) ensures BlockSize(j) < size + HEADER_BYTES {
        HasBounds(s.tree, s.top, 0, o, j, Free);
        assert o in s.lists[j];
        BlockSizeMonotone(j, k - 1);
      }
    }
  }

  lemma InvParts(s: Heap, pend: Option<(nat, nat)>)
    requires Inv(s, pend)
    ensures |s.lists| == s.top + 1 && Sized(s.top, s.maxSize) && WellFormed(s.tree, s.top) && ListsMatch(s)
    ensures BlockSize(0) == 16 && BlockSize(1) == 32 && s.top <= 25
  {
    assert BlockSize(1) == 2 * BlockSize(0);
  }

  /** A block that malloc returns was carved from one free block: it has room for the
      request and its header and is less than twice that, at least 32 bytes, and the
      rest of the free block becomes one free block of each smaller order. Of the
      smallest sufficient order it takes the block freed last. */
  lemma MallocTight(s: Heap, size: nat)
    requires Inv(s, None) && Accepted(size) && Malloc(s, size).1.Some?
    ensures var o := Malloc(s, size).1.value - HEADER_BYTES;
      var k := FitOrder(MemNeeded(size));
      && o >= 0 && Serves(s, size) && k <= s.top
      && var f := FindOrder(s.lists, k);
      && f <= s.top && |s.lists[f]| > 0 && o == s.lists[f][|s.lists[f]| - 1]
      && MemNeeded(size) <= BlockSize(k) < 2 * MemNeeded(size) && 32 <= BlockSize(k)
      && (size + HEADER_BYTES < TWO_TO_THE_64 ==> MemNeeded(size) == size + HEADER_BYTES)
      && s.At(o, f, Free)
      && Malloc(s, size).0.tree == Put(s.tree, s.top, 0, o, f, Spine(f, k, Live))
      && (forall o': nat, k': nat :: Malloc(s, size).0.At(o', k', Live) <==> s.At(o', k', Live) || (o', k') == (o, k))
  {
    hide Inv, FitOrder, MemNeeded, Accepted, BlockSize, Carve;
    InvParts(s, None);
    NeedFits(s, size);
    if size + HEADER_BYTES < TWO_TO_THE_64 { NeedIs(size); }
    var k := FitOrder(MemNeeded(size));
    var f := FindOrder(s.lists, k);
    var o := s.lists[f][|s.lists[f]| - 1];
    assert s.At(o, f, Free);
    TakeKeepsInv(s, o, f);
    var s1 := Take(s, o, f);
    CarveIsSpine(s1, o, f, k);
    var c := Carve(s1, o, f, k);
    SettleKeepsInv(c, o, k);
    PutTwice(s.tree, s.top, 0, o, f, Leaf(Transit), o, f, Spine(f, k, Transit));
    SpineHead(f, k, o, Transit);
    PutTwice(s.tree, s.top, 0, o, f, Spine(f, k, Transit), o, k, Leaf(Live));
    BlockSizeMonotone(1, k);
  }

  /** What malloc does with a size that wraps: with 2^64 - 24 it answers NULL, and with the
      larger ones that it accepts it hands out 32 bytes as soon as any block is free. Those
      are the only blocks it ever hands out that are too small. */
  lemma WrapHandsOutTooSmall(s: Heap, size: nat)
    requires Inv(s, None) && Accepted(size) && size > 0
    ensures size == TWO_TO_THE_64 - HEADER_BYTES ==> Malloc(s, size).1 == None
    ensures size > TWO_TO_THE_64 - HEADER_BYTES && (exists o: nat, f: nat :: s.At(o, f, Free)) ==>
              && Malloc(s, size).1.Some? && Malloc(s, size).1.value >= HEADER_BYTES
              && Malloc(s, size).0.At(Malloc(s, size).1.value - HEADER_BYTES, 1, Live) && BlockSize(1) == 32
    ensures Malloc(s, size).1.Some? ==>
              (BlockSize(FitOrder(MemNeeded(size))) < size + HEADER_BYTES <==> size > TWO_TO_THE_64 - HEADER_BYTES)
  {
    hide Inv, FitOrder, BlockSize, Carve, Take, Retag, Sub, Put, Spine;
    InvParts(s, None);
    HeapBelow30Bits(s.top, s.maxSize);
    if size + HEADER_BYTES < TWO_TO_THE_64 {
      if Malloc(s, size).1.Some? { MallocTight(s, size); }
    } else if MemNeeded(size) != 0 {
      assert 17 <= MemNeeded(size) < 24;
      BlockSizeMonotone(1, s.top);
      NeedFits(s, size);
      OrderOne(MemNeeded(size));
      if o: nat, f: nat :| s.At(o, f, Free) {
        HasBounds(s.tree, s.top, 0, o, f, Free);
        assert o in s.lists[f];
        assert FindOrder(s.lists, 1) <= f;
        MallocTight(s, size);
      }
    }
  }

  lemma OrderOne(need: nat)
    requires 17 <= need < 24
    ensures FitOrder(need) == 1 && BlockSize(1) == 32
  {
    FitOrderTight(need);
    var k: int := FitOrder(need) - 1;
    BlockSizeMonotone(0, k);
    assert BlockSize(1) == 2 * BlockSize(0);
  }

  // ---------------------------------------------------------------- free

  /** The merging loop, then the push of what it ends with. */
  ghost function Coalesce(s: Heap, o: nat, k: nat): (r: Heap)
    requires Inv(s, Some((o, k)))
    ensures Inv(r, None) && SameLive(s, r) && r.top == s.top && r.maxSize == s.maxSize
    decreases s.top - k
  {
    assert s.At(o, k, Transit);
    BlockAlone(s, o, k, Transit);
    if k < s.top && s.At(Buddy(o, k), k, Free) then
      MergeKeepsInv(s, o, k);
      Coalesce(Merge(s, o, k), Parent(o, k), k + 1)
    else
      DropKeepsInv(s, o, k);
      Drop(s, o, k)
  }

  /** free of the live block of order k at offset o. */
  ghost function FreeBlock(s: Heap, o: nat, k: nat): (r: Heap)
    requires Inv(s, None) && s.At(o, k, Live)
    ensures Inv(r, None) && r.top == s.top && r.maxSize == s.maxSize
    ensures forall o': nat, k': nat :: r.At(o', k', Live) <==> s.At(o', k', Live) && (o', k') != (o, k)
  {
    GrabKeepsInv(s, o, k);
    Coalesce(Retag(s, o, k, Live, Transit), o, k)
  }

  /** The loop joins exactly the free buddies that a release from the root down joins. */
  lemma {:induction false} CoalesceIsRelease(s: Heap, o: nat, k: nat)
    requires Inv(s, Some((o, k)))
    ensures s.At(o, k, Transit)
    ensures Coalesce(s, o, k).tree == Release(s.tree, s.top, 0, o, k)
    decreases s.top - k
  {
    assert s.At(o, k, Transit);
    BlockAlone(s, o, k, Transit);
    if k < s.top && s.At(Buddy(o, k), k, Free) {
      MergeKeepsInv(s, o, k);
      CoalesceIsRelease(Merge(s, o, k), Parent(o, k), k + 1);
      ReleaseUp(s.tree, s.top, 0, o, k);
      ReleasePut(s.tree, s.top, 0, Parent(o, k), k + 1, Leaf(Transit));
    } else {
      DropKeepsInv(s, o, k);
      ReleaseStops(s.tree, s.top, 0, o, k);
    }
  }

  lemma FreeIsRelease(s: Heap, o: nat, k: nat)
    requires Inv(s, None) && s.At(o, k, Live)
    ensures FreeBlock(s, o, k).tree == Release(s.tree, s.top, 0, o, k)
  {
    GrabKeepsInv(s, o, k);
    CoalesceIsRelease(Retag(s, o, k, Live, Transit), o, k);
    ReleasePut(s.tree, s.top, 0, o, k, Leaf(Transit));
  }

  // ---------------------------------------------------------------- round trip

  lemma HalveThenMerge(s: Heap, o: nat, k: nat)
    requires Inv(s, Some((o, k))) && 2 <= k
    ensures s.At(o, k, Transit) && k <= s.top
    ensures var h := Halve(s, o, k);
      && h.At(o, k - 1, Transit) && k - 1 < h.top && h.At(Buddy(o, k - 1), k - 1, Free) && Parent(o, k - 1) == o
      && Sub(h.tree, h.top, 0, Parent(o, k - 1), k).Some?
      && Merge(h, o, k - 1) == s
  {
    hide Inv, Buddy, Parent, Coalesced, Distinct;
    HalveLists(s, o, k);
    InvParts(s, Some((o, k)));
    BlockAlone(s, o, k, Transit);
    HasBounds(s.tree, s.top, 0, o, k, Transit);
    var b := o + BlockSize(k - 1);
    MasksAt(o, k - 1);
    SplitBlock(s.tree, s.top, o, k);
    assert b !in s.lists[k - 1] by {
      BlockAlone(s, o, k, Transit);
      assert Within(b, k - 1, o, k);
      assert !s.At(b, k - 1, Free);
    }
    AppendThenWithout(s.lists[k - 1], b);
    var h := Halve(s, o, k);
    assert h.lists[k - 1] == s.lists[k - 1] + [b];
    assert h.lists[k - 1 := s.lists[k - 1]] == s.lists;
  }

  lemma SplitBlock(t: Tree, K: nat, o: nat, k: nat)
    requires 1 <= k && Has(t, K, 0, o, k, Transit)
    ensures var h := Put(t, K, 0, o, k, Split(Leaf(Transit), Leaf(Free)));
      && Has(h, K, 0, o, k - 1, Transit) && Has(h, K, 0, o + BlockSize(k - 1), k - 1, Free)
      && Sub(h, K, 0, o, k).Some? && Put(h, K, 0, o, k, Leaf(Transit)) == t
  {
    var two := Split(Leaf(Transit), Leaf(Free));
    PutTwice(t, K, 0, o, k, two, o + BlockSize(k - 1), k - 1, Leaf(Free));
    PutTwice(t, K, 0, o, k, two, o, k - 1, Leaf(Transit));
    PutTwice(t, K, 0, o, k, two, o, k, Leaf(Transit));
    PutSame(t, K, 0, o, k);
  }

  lemma {:induction false} AppendThenWithout(l: seq<nat>, x: nat)
    requires x !in l
    ensures Without(l + [x], x) == l
  {
    if l == [] {
    } else {
      assert (l + [x])[1..] == l[1..] + [x];
      AppendThenWithout(l[1..], x);
    }
  }

  lemma {:induction false} CoalesceUndoesCarve(s: Heap, o: nat, f: nat, k: nat)
    requires 1 <= k <= f && Inv(s, Some((o, f)))
    ensures Coalesce(Carve(s, o, f, k), o, k) == Coalesce(s, o, f)
    decreases f
  {
    hide Inv, SameLive, Put, Halve, BlockSize, ListsMatch;
    if k == f {
    } else {
      HalveThenMerge(s, o, f);
      HalveKeepsInv(s, o, f);
      var h := Halve(s, o, f);
      CoalesceUndoesCarve(h, o, f - 1, k);
      assert Coalesce(h, o, f - 1) == Coalesce(s, o, f);
    }
  }

  /** Freeing the block just allocated gives back the very same heap, list order included. */
  lemma RoundTrip(s: Heap, size: nat)
    requires Inv(s, None) && Accepted(size) && Malloc(s, size).1.Some?
    ensures var o := Malloc(s, size).1.value - HEADER_BYTES;
      var k := FitOrder(MemNeeded(size));
      && o >= 0 && Malloc(s, size).0.At(o, k, Live) && FreeBlock(Malloc(s, size).0, o, k) == s
  {
    NeedFits(s, size);
    MallocTight(s, size);
    var k := FitOrder(MemNeeded(size));
    var f := FindOrder(s.lists, k);
    var o := s.lists[f][|s.lists[f]| - 1];
    TakeKeepsInv(s, o, f);
    var s1 := Take(s, o, f);
    var c := Carve(s1, o, f, k);
    SettleKeepsInv(c, o, k);
    var m := Retag(c, o, k, Transit, Live);
    assert m.At(o, k, Live);
    PutTwice(c.tree, c.top, 0, o, k, Leaf(Live), o, k, Leaf(Transit));
    PutSame(c.tree, c.top, 0, o, k);
    assert Retag(m, o, k, Live, Transit) == c;
    CoalesceUndoesCarve(s1, o, f, k);
    TakeThenDrop(s, o, f);
  }

  /** In a coalesced heap the buddy of a free block is not a free block of its order. */
  lemma NoFreeBuddy(s: Heap, o: nat, f: nat)
    requires Inv(s, None) && f < s.top && s.At(o, f, Free)
    ensures !s.At(Buddy(o, f), f, Free)
  {
    hide Buddy, Parent, BlockSize, ListsMatch, InTransit;
    SiblingsAt(s.tree, s.top, 0, o, f);
    CoalescedAt(s.tree, s.top, 0, Parent(o, f), f + 1);
  }

  lemma TakeThenDrop(s: Heap, o: nat, f: nat)
    requires Inv(s, None) && f <= s.top && s.At(o, f, Free)
    requires |s.lists[f]| > 0 && o == s.lists[f][|s.lists[f]| - 1]
    ensures Inv(Take(s, o, f), Some((o, f))) && Coalesce(Take(s, o, f), o, f) == s
  {
    hide Inv, ListsMatch, Put, Buddy, Without, Distinct;
    InvParts(s, None);
    TakeKeepsInv(s, o, f);
    RetagBlock(s, o, f, Free, Transit);
    var s1, l := Take(s, o, f), s.lists[f];
    ListIsDistinct(s, f);
    WithoutSpec(l, o);
    assert Without(l, o) + [o] == l;
    if f < s.top { NoFreeBuddy(s, o, f); }
    PutTwice(s.tree, s.top, 0, o, f, Leaf(Transit), o, f, Leaf(Free));
    PutSame(s.tree, s.top, 0, o, f);
    assert s1.lists[f := l] == s.lists;
  }

  lemma ListIsDistinct(s: Heap, k: nat)
    requires |s.lists| == s.top + 1 && ListsMatch(s) && k <= s.top
    ensures Distinct(s.lists[k])
  {}

  lemma {:induction false} CoalescedAt(t: Tree, K: nat, a: nat, o: nat, k: nat)
    requires Coalesced(t) && Sub(t, K, a, o, k).Some?
    ensures Coalesced(Sub(t, K, a, o, k).value)
    decreases t
  {
    if k == K {
    } else {
      var mid := a + BlockSize(K - 1);
      if o < mid { CoalescedAt(t.left, K - 1, a, o, k); } else { CoalescedAt(t.right, K - 1, mid, o, k); }
    }
  }

  // ---------------------------------------------------------------- runs

  /** What initializeMemoryManager leaves. */
  function Initial(top: nat, maxSize: nat): (s: Heap) {
    Heap(Leaf(Free), seq(top, _ => []) + [[0]], top, maxSize)
  }

  lemma InitialInv(top: nat, maxSize: nat)
    requires Sized(top, maxSize)
    ensures Inv(Initial(top, maxSize), None)
  {
    var s := Initial(top, maxSize);
    forall k: nat, o: nat | k <= s.top ensures o in s.lists[k] <==> s.At(o, k, Free) {
      if k < top { assert s.lists[k] == []; } else { assert s.lists[k] == [0]; }
    }
    forall k | 0 <= k <= s.top ensures Distinct(s.lists[k]) {
      if k < top { assert s.lists[k] == []; } else { assert s.lists[k] == [0]; }
    }
  }

  datatype Op = MallocOp(size: nat) | FreeOp(o: nat, k: nat)

  ghost predicate Legal(s: Heap, op: Op) {
    match op
    case MallocOp(size) => Accepted(size)
    case FreeOp(o, k) => s.At(o, k, Live)
  }

  ghost function Apply(s: Heap, op: Op): (s': Heap)
    requires Inv(s, None) && Legal(s, op)
    ensures Inv(s', None) && s'.top == s.top && s'.maxSize == s.maxSize
  {
    match op
    case MallocOp(size) => Malloc(s, size).0
    case FreeOp(o, k) => FreeBlock(s, o, k)
  }

  ghost predicate Next(s: Heap, op: Op, s': Heap) {
    Inv(s, None) ==> Legal(s, op) && s' == Apply(s, op)
  }

  /** A run: each operation is legal in the heap it meets. */
  ghost predicate IsRun(states: seq<Heap>, ops: seq<Op>) {
    && |states| == |ops| + 1
    && (exists top, maxSize :: Sized(top, maxSize) && states[0] == Initial(top, maxSize))
    && forall i :: 0 <= i < |ops| ==> Next(states[i], ops[i], states[i + 1])
  }

  lemma {:induction false} RunKeepsInv(states: seq<Heap>, ops: seq<Op>, i: nat)
    requires IsRun(states, ops) && i <= |ops|
    ensures Inv(states[i], None)
    ensures states[i].top == states[0].top && states[i].maxSize == states[0].maxSize
    decreases i
  {
    if i == 0 {
      var top, maxSize :| Sized(top, maxSize) && states[0] == Initial(top, maxSize);
      InitialInv(top, maxSize);
    } else {
      RunKeepsInv(states, ops, i - 1);
      assert Next(states[i - 1], ops[i - 1], states[i - 1 + 1]);
    }
  }

  predicate Covers(o: nat, k: nat, x: nat) { o <= x < o + BlockSize(k) }

  /** In every reachable heap the blocks tile it: each byte is in exactly one block, every
      block sits at a multiple of its size inside the heap, and the free blocks of order k
      are the members of list k, once each. */
  lemma ReachableTiling(states: seq<Heap>, ops: seq<Op>, i: nat, x: nat)
    requires IsRun(states, ops) && i <= |ops| && x < BlockSize(states[i].top)
    ensures exists o: nat, k: nat, tag :: states[i].At(o, k, tag) && Covers(o, k, x)
    ensures forall o: nat, k: nat, g, o': nat, k': nat, g' ::
      (states[i].At(o, k, g) && states[i].At(o', k', g') && Covers(o, k, x) && Covers(o', k', x)) ==>
      o == o' && k == k' && g == g'
    ensures forall o: nat, k: nat, g :: states[i].At(o, k, g) ==>
              1 <= k <= states[i].top && o % BlockSize(k) == 0 && o + BlockSize(k) <= BlockSize(states[i].top)
                  && g != Transit
    ensures |states[i].lists| == states[i].top + 1 && ListsMatch(states[i])
  {
    RunKeepsInv(states, ops, i);
    var s := states[i];
    var o0, k0, g0 := BlocksCover(s.tree, s.top, 0, x);
    assert s.At(o0, k0, g0) && Covers(o0, k0, x);
    forall o: nat, k: nat, g, o': nat, k': nat, g' |
      s.At(o, k, g) && s.At(o', k', g') && Covers(o, k, x) && Covers(o', k', x)
      ensures o == o' && k == k' && g == g'
    {
      BlocksDisjoint(s.tree, s.top, 0, o, k, g, o', k', g');
    }
    forall o: nat, k: nat, g | s.At(o, k, g)
      ensures 1 <= k <= s.top && o % BlockSize(k) == 0 && o + BlockSize(k) <= BlockSize(s.top) && g != Transit
    {
      HasBounds(s.tree, s.top, 0, o, k, g);
    }
  }

  /** Whatever the run, and in whatever order the blocks were freed: once none is live the
      heap is as it was at the start, one free block of maximal order. */
  lemma AllFreedRestoresInitial(states: seq<Heap>, ops: seq<Op>, i: nat)
    requires IsRun(states, ops) && i <= |ops|
    requires forall o: nat, k: nat :: !states[i].At(o, k, Live)
    ensures states[i] == states[0]
  {
    RunKeepsInv(states, ops, i);
    RunKeepsInv(states, ops, 0);
    var s := states[i];
    assert forall o: nat, k: nat :: !s.At(o, k, Transit);
    forall o: nat, k: nat, g | Has(s.tree, s.top, 0, o, k, g) ensures g == Free {
      assert s.At(o, k, g);
    }
    AllFreeIsOneBlock(s.tree, s.top);
    OneBlockLists(s);
    OneBlockLists(states[0]);
  }

  lemma FirstTwoDiffer(l: seq<nat>)
    requires Distinct(l) && |l| > 1
    ensures l[0] != l[1]
  {}

  lemma MembersAre(l: seq<nat>, inhabited: bool)
    requires Distinct(l)
    requires forall o: nat :: o in l <==> inhabited && o == 0
    ensures l == if inhabited then [0] else []
  {
    assert 0 in l <==> inhabited;
    forall i | 0 <= i < |l| ensures l[i] == 0 && inhabited {
      assert l[i] in l;
    }
    assert |l| > 0 ==> l[0] == 0;
    if |l| > 1 {
      FirstTwoDiffer(l);
      assert false;
    }
  }

  lemma OneBlockLists(s: Heap)
    requires Inv(s, None) && s.tree == Leaf(Free)
    ensures s == Initial(s.top, s.maxSize)
  {
    var init := Initial(s.top, s.maxSize);
    forall k | 0 <= k <= s.top ensures s.lists[k] == init.lists[k] {
      var l := s.lists[k];
      assert forall o: nat :: o in l <==> s.At(o, k, Free);
      MembersAre(l, k == s.top);
      if k == s.top {
        assert 0 in l;
        assert init.lists[k] == [0];
      } else {
        assert init.lists[k] == [];
      }
    }
    assert s.lists == init.lists;
  }
}

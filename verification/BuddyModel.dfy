/** The buddy allocator on abstract values: a tree of blocks and, per order, the blocks
    of its free list in list order. One function per step of malloc and free. */
module BuddyModel {
  import opened Wrappers
  import opened Bits
  import opened BuddyTree

  const TWO_TO_THE_32 := 0x1_0000_0000
  const TWO_TO_THE_64 := 0x1_0000_0000_0000_0000

  /** top is currentBlocks - 1 and maxSize is blockMaxSize. */
  datatype Heap = Heap(tree: Tree, lists: seq<seq<nat>>, top: nat, maxSize: nat) {
    predicate At(o: nat, k: nat, tag: Tag) { Has(tree, top, 0, o, k, tag) }
  }

  predicate Sized(top: nat, maxSize: nat) {
    1 <= top <= 25 && BlockSize(top) <= maxSize < 2 * BlockSize(top)
  }

  predicate Distinct(s: seq<nat>) { forall i, j :: 0 <= i < j < |s| ==> s[i] != s[j] }

  ghost predicate ListsMatch(s: Heap)
    requires |s.lists| == s.top + 1
  {
    && (forall k :: 0 <= k <= s.top ==> Distinct(s.lists[k]))
    && (forall k: nat, o: nat :: k <= s.top ==> (o in s.lists[k] <==> s.At(o, k, Free)))
  }

  /** The block in transit, if any, is the one named. */
  ghost predicate InTransit(s: Heap, pend: Option<(nat, nat)>) {
    forall o: nat, k: nat :: s.At(o, k, Transit) <==> pend == Some((o, k))
  }

  ghost predicate Inv(s: Heap, pend: Option<(nat, nat)>) {
    && Sized(s.top, s.maxSize)
    && WellFormed(s.tree, s.top)
    && Coalesced(s.tree)
    && |s.lists| == s.top + 1
    && ListsMatch(s)
    && InTransit(s, pend)
  }

  ghost predicate SameLive(s: Heap, s': Heap) {
    forall o: nat, k: nat :: s.At(o, k, Live) <==> s'.At(o, k, Live)
  }

  // ---------------------------------------------------------------- sizes

  function MemNeeded(size: nat): (need: nat)
    ensures need < TWO_TO_THE_64
  {
    (size + HEADER_BYTES) % TWO_TO_THE_64
  }

  /** getMinimumFittingOrder, with the size_t wrap of log2's -1 and the cast to uint8_t. */
  function FitOrder(memNeeded: nat): (k: nat)
    ensures k < 256
  {
    var l := Log2Of(memNeeded % TWO_TO_THE_32);
    var minOrder := if l < 0 then TWO_TO_THE_64 - 1 else l;
    if minOrder < MIN_ALLOC_LOG2 then 0
    else if memNeeded != 0 && And(memNeeded, memNeeded - 1) == 0 then (minOrder - MIN_ALLOC_LOG2) % 256
    else (minOrder - MIN_ALLOC_LOG2 + 1) % 256
  }

  lemma {:induction false} BlockSizeMonotone(j: nat, k: nat)
    requires j <= k
    ensures BlockSize(j) <= BlockSize(k) && (j < k ==> 2 * BlockSize(j) <= BlockSize(k))
    decreases k
  {
    if j == k {
    } else {
      BlockSizeMonotone(j, k - 1);
    }
  }

  lemma Pow2Of30()
    ensures Pow2(30) == 0x4000_0000
  {
    assert Pow2(10) == 1024;
    assert Pow2(20) == 1024 * 1024 by { Pow2Adds(10, 10); }
    Pow2Adds(20, 10);
  }

  lemma {:induction false} Pow2Adds(a: nat, b: nat)
    ensures Pow2(a + b) == Pow2(a) * Pow2(b)
  {
    if b == 0 {
    } else {
      Pow2Adds(a, b - 1);
    }
  }

  lemma Log2Below30(need: nat)
    requires 0 < need < 0x4000_0000
    ensures 0 <= Log2Of(need) < 30
  {
    Log2Bounds(need);
    Pow2Of30();
    Pow2Strict(Log2Of(need), 30);
  }

  /** FitOrder without the machine details. */
  lemma FitOrderCases(need: nat)
    requires 0 < need < 0x4000_0000
    ensures 0 <= Log2Of(need) < 30
    ensures FitOrder(need) ==
            if Log2Of(need) < 4 then 0 else if need == Pow2(Log2Of(need)) then Log2Of(need) - 4 else Log2Of(need) - 3
  {
    Log2Below30(need);
    PowerOfTwoTest(need);
    SmallMod(need, TWO_TO_THE_32);
    var l := Log2Of(need);
    if l >= 4 {
      SmallMod(l - 4, 256);
      SmallMod(l - 3, 256);
    }
  }

  lemma SmallMod(n: nat, d: nat)
    requires n < d
    ensures n % d == n
  {}

  /** The order chosen is the smallest one whose block holds the request: fewer than
      half of its bytes are wasted, and from 17 bytes on it is never order 0. */
  lemma FitOrderTight(need: nat)
    requires 17 <= need < 0x4000_0000
    ensures 1 <= FitOrder(need) <= 26
    ensures BlockSize(FitOrder(need) - 1) < need <= BlockSize(FitOrder(need)) < 2 * need
  {
    var l := Log2Of(need);
    FitOrderCases(need);
    Log2Bounds(need);
    if l < 4 { Pow2Monotone(l + 1, 4); }
    BlockSizeIsPow2(l - 4);
    assert BlockSize(l - 3) == 2 * BlockSize(l - 4);
    assert BlockSize(0) == 16;
    assert Pow2(l + 1) == 2 * Pow2(l);
    if need == Pow2(l) {
      if l == 4 { assert false; }
      assert BlockSize(l - 4) == 2 * BlockSize(l - 5);
    }
  }

  lemma SmallNeedGetsOrderZero(need: nat)
    requires 0 < need < 17
    ensures FitOrder(need) == 0
  {
    var l := Log2Of(need);
    FitOrderCases(need);
    Log2Bounds(need);
    if l > 4 { Pow2Monotone(5, l); }
  }

  /** Without any bit set the order is beyond every list. */
  lemma NoNeedGetsNoOrder()
    ensures FitOrder(0) == 252
  {}

  /** Adding the header to a size near 2^64 wraps. Of the 24 sizes for which it does, 16 are
      left with so few bytes that the order chosen is 0, whose 16 bytes hold no header. */
  predicate Accepted(size: nat) {
    size < TWO_TO_THE_64 && !(0 < MemNeeded(size) < 17)
  }

  /** For which sizes the order chosen is too small to hold the request: exactly for those that
      wrap, but for 2^64 - 24, for which there is no such order at all. */
  lemma WrapMakesBlockTooSmall(size: nat)
    requires 0 < size < TWO_TO_THE_64
    requires size + HEADER_BYTES < 0x4000_0000 || TWO_TO_THE_64 <= size + HEADER_BYTES
    ensures FitOrder(MemNeeded(size)) > 26 <==> size == TWO_TO_THE_64 - HEADER_BYTES
    ensures BlockSize(FitOrder(MemNeeded(size))) < size + HEADER_BYTES && FitOrder(MemNeeded(size)) <= 26 <==>
            TWO_TO_THE_64 - HEADER_BYTES < size
  {
    hide FitOrder, BlockSize;
    var need := MemNeeded(size);
    SmallBlocks();
    if size + HEADER_BYTES < TWO_TO_THE_64 {
      FitOrderTight(need);
    } else {
      assert need < 24;
      if need == 0 { NoNeedGetsNoOrder(); }
      else if need < 17 { SmallNeedGetsOrderZero(need); }
      else { FitOrderTight(need); }
    }
  }

  lemma SmallBlocks()
    ensures BlockSize(0) == 16 && BlockSize(1) == 32
  {
    assert BlockSize(1) == 2 * BlockSize(0);
  }

  // ---------------------------------------------------------------- the steps

  function Without(s: seq<nat>, x: nat): (r: seq<nat>)
    ensures x !in s ==> r == s
    ensures |r| <= |s|
  {
    if s == [] then [] else if s[0] == x then s[1..] else [s[0]] + Without(s[1..], x)
  }

  lemma {:induction false} WithoutMembers(s: seq<nat>, x: nat)
    requires Distinct(s)
    ensures Distinct(Without(s, x))
    ensures forall y :: y in Without(s, x) <==> y in s && y != x
  {
    if s == [] {
    } else {
      var r := s[1..];
      assert s == [s[0]] + r;
      assert forall i :: 0 <= i < |r| ==> r[i] == s[i + 1];
      if s[0] != x {
        WithoutMembers(r, x);
        assert s[0] !in r;
        assert Without(s, x) == [s[0]] + Without(r, x);
      } else {
        assert x !in r;
      }
    }
  }

  lemma {:induction false} WithoutAt(s: seq<nat>, x: nat, i: nat)
    requires Distinct(s) && i < |s| && s[i] == x
    ensures Without(s, x) == s[..i] + s[i + 1..]
  {
    if i == 0 {
    } else {
      var r := s[1..];
      WithoutAt(r, x, i - 1);
      assert [s[0]] + (r[..i - 1] + r[i..]) == s[..i] + s[i + 1..];
    }
  }

  lemma WithoutSpec(s: seq<nat>, x: nat)
    requires Distinct(s)
    ensures Distinct(Without(s, x))
    ensures forall y :: y in Without(s, x) <==> y in s && y != x
    ensures forall i :: 0 <= i < |s| && s[i] == x ==> Without(s, x) == s[..i] + s[i + 1..]
  {
    WithoutMembers(s, x);
    forall i | 0 <= i < |s| && s[i] == x ensures Without(s, x) == s[..i] + s[i + 1..] {
      WithoutAt(s, x, i);
    }
  }

  /** popFromList on a free block: it leaves its list and becomes the working block. */
  function Take(s: Heap, o: nat, k: nat): Heap
    requires k < |s.lists| && s.At(o, k, Free)
  {
    s.(tree := Put(s.tree, s.top, 0, o, k, Leaf(Transit)), lists := s.lists[k := Without(s.lists[k], o)])
  }

  /** One round of malloc's splitting loop: keep the lower half, list the upper one. */
  function Halve(s: Heap, o: nat, k: nat): Heap
    requires 0 < k < |s.lists| && s.At(o, k, Transit)
  {
    s.(tree := Put(s.tree, s.top, 0, o, k, Split(Leaf(Transit), Leaf(Free))),
       lists := s.lists[k - 1 := s.lists[k - 1] + [o + BlockSize(k - 1)]])
  }

  /** The working block becomes live, or a live block becomes the working one. */
  function Retag(s: Heap, o: nat, k: nat, oldTag: Tag, newTag: Tag): Heap
    requires s.At(o, k, oldTag)
  {
    s.(tree := Put(s.tree, s.top, 0, o, k, Leaf(newTag)))
  }

  /** One round of free's loop: the free buddy leaves its list and joins the working block. */
  function Merge(s: Heap, o: nat, k: nat): Heap
    requires k < s.top && k < |s.lists| && s.At(o, k, Transit)
    requires Sub(s.tree, s.top, 0, Parent(o, k), k + 1).Some?
  {
    s.(tree := Put(s.tree, s.top, 0, Parent(o, k), k + 1, Leaf(Transit)),
       lists := s.lists[k := Without(s.lists[k], Buddy(o, k))])
  }

  /** pushToList at the end of free. */
  function Drop(s: Heap, o: nat, k: nat): Heap
    requires k < |s.lists| && s.At(o, k, Transit)
  {
    s.(tree := Put(s.tree, s.top, 0, o, k, Leaf(Free)), lists := s.lists[k := s.lists[k] + [o]])
  }

  // ---------------------------------------------------------------- every step keeps the invariant

  lemma PutHasAll(s: Heap, o: nat, k: nat, t: Tree)
    requires Sub(s.tree, s.top, 0, o, k).Some?
    ensures forall o': nat, k': nat, g :: Has(Put(s.tree, s.top, 0, o, k, t), s.top, 0, o', k', g) <==>
      if Within(o', k', o, k) then Has(t, k, o, o', k', g) else s.At(o', k', g)
  {
    forall o': nat, k': nat, g ensures Has(Put(s.tree, s.top, 0, o, k, t), s.top, 0, o', k', g) <==>
      if Within(o', k', o, k) then Has(t, k, o, o', k', g) else s.At(o', k', g)
    {
      PutHas(s.tree, s.top, 0, o, k, t, o', k', g);
    }
  }

  /** Inside the range of a block there is only that block. */
  lemma BlockAlone(s: Heap, o: nat, k: nat, tag: Tag)
    requires WellFormed(s.tree, s.top) && s.At(o, k, tag)
    ensures 1 <= k <= s.top
    ensures forall o': nat, k': nat, g :: Within(o', k', o, k) && s.At(o', k', g) ==> o' == o && k' == k && g == tag
  {
    HasBounds(s.tree, s.top, 0, o, k, tag);
    forall o': nat, k': nat, g | Within(o', k', o, k) && s.At(o', k', g)
      ensures o' == o && k' == k && g == tag
    {
      BlocksDisjoint(s.tree, s.top, 0, o, k, tag, o', k', g);
      BlockSizeMonotone(k', k);
    }
  }

  /** Replacing a block by a block with another tag. */
  lemma RetagBlock(s: Heap, o: nat, k: nat, oldTag: Tag, newTag: Tag)
    requires WellFormed(s.tree, s.top) && s.At(o, k, oldTag)
    ensures var t := Put(s.tree, s.top, 0, o, k, Leaf(newTag));
      && WellFormed(t, s.top)
      && forall o': nat, k': nat, g :: Has(t, s.top, 0, o', k', g) <==>
           if (o', k') == (o, k) then g == newTag else s.At(o', k', g)
  {
    BlockAlone(s, o, k, oldTag);
    PutHasAll(s, o, k, Leaf(newTag));
    PutWellFormed(s.tree, s.top, 0, o, k, Leaf(newTag));
  }

  lemma TakeKeepsInv(s: Heap, o: nat, k: nat)
    requires Inv(s, None) && k <= s.top && s.At(o, k, Free)
    ensures Inv(Take(s, o, k), Some((o, k))) && SameLive(s, Take(s, o, k))
  {
    RetagBlock(s, o, k, Free, Transit);
    PutCoalesced(s.tree, s.top, 0, o, k, Leaf(Transit));
    WithoutSpec(s.lists[k], o);
  }

  lemma SettleKeepsInv(s: Heap, o: nat, k: nat)
    requires Inv(s, Some((o, k)))
    ensures s.At(o, k, Transit) && Inv(Retag(s, o, k, Transit, Live), None)
    ensures forall o': nat, k': nat :: Retag(s, o, k, Transit, Live).At(o', k', Live) <==>
            s.At(o', k', Live) || (o', k') == (o, k)
  {
    assert s.At(o, k, Transit);
    RetagBlock(s, o, k, Transit, Live);
    PutCoalesced(s.tree, s.top, 0, o, k, Leaf(Live));
  }

  lemma GrabKeepsInv(s: Heap, o: nat, k: nat)
    requires Inv(s, None) && s.At(o, k, Live)
    ensures Inv(Retag(s, o, k, Live, Transit), Some((o, k)))
    ensures forall o': nat, k': nat :: Retag(s, o, k, Live, Transit).At(o', k', Live) <==>
            s.At(o', k', Live) && (o', k') != (o, k)
  {
    RetagBlock(s, o, k, Live, Transit);
    PutCoalesced(s.tree, s.top, 0, o, k, Leaf(Transit));
  }

  lemma DropKeepsInv(s: Heap, o: nat, k: nat)
    requires Inv(s, Some((o, k)))
    requires k < s.top ==> !s.At(Buddy(o, k), k, Free)
    ensures s.At(o, k, Transit) && k <= s.top && Inv(Drop(s, o, k), None) && SameLive(s, Drop(s, o, k))
  {
    assert s.At(o, k, Transit);
    RetagBlock(s, o, k, Transit, Free);
    BlockAlone(s, o, k, Transit);
    PutCoalesced(s.tree, s.top, 0, o, k, Leaf(Free));
    assert o !in s.lists[k];
  }

  lemma HalveKeepsInv(s: Heap, o: nat, k: nat)
    requires Inv(s, Some((o, k))) && 2 <= k
    ensures s.At(o, k, Transit) && k <= s.top
    ensures Inv(Halve(s, o, k), Some((o, k - 1))) && SameLive(s, Halve(s, o, k))
  {
    assert s.At(o, k, Transit);
    BlockAlone(s, o, k, Transit);
    var h, b := k - 1, o + BlockSize(k - 1);
    var t := Split(Leaf(Transit), Leaf(Free));
    PutHasAll(s, o, k, t);
    PutWellFormed(s.tree, s.top, 0, o, k, t);
    PutCoalesced(s.tree, s.top, 0, o, k, t);
    forall o': nat, k': nat, g ensures Has(t, k, o, o', k', g) <==>
        k' == h && ((o' == o && g == Transit) || (o' == b && g == Free)) {}
    var s' := Halve(s, o, k);
    assert forall o': nat, k': nat, g :: s'.At(o', k', g) <==>
      if Within(o', k', o, k) then k' == h && ((o' == o && g == Transit) || (o' == b && g == Free))
      else s.At(o', k', g);
    assert b !in s.lists[h] by { assert !s.At(b, h, Free); }
    forall k': nat, o': nat | k' <= s'.top ensures o' in s'.lists[k'] <==> s'.At(o', k', Free) {
      if k' == h { assert o' in s'.lists[k'] <==> o' in s.lists[h] || o' == b; }
      else { assert s'.lists[k'] == s.lists[k']; }
    }
  }

  lemma MergeKeepsInv(s: Heap, o: nat, k: nat)
    requires Inv(s, Some((o, k))) && k < s.top && s.At(Buddy(o, k), k, Free)
    ensures s.At(o, k, Transit) && Sub(s.tree, s.top, 0, Parent(o, k), k + 1).Some?
    ensures Inv(Merge(s, o, k), Some((Parent(o, k), k + 1))) && SameLive(s, Merge(s, o, k))
  {
    assert s.At(o, k, Transit);
    SiblingsAt(s.tree, s.top, 0, o, k);
    BlockAlone(s, o, k, Transit);
    var p, b := Parent(o, k), Buddy(o, k);
    BlockAlone(s, b, k, Free);
    var s' := Merge(s, o, k);
    PutHasAll(s, p, k + 1, Leaf(Transit));
    PutWellFormed(s.tree, s.top, 0, p, k + 1, Leaf(Transit));
    PutCoalesced(s.tree, s.top, 0, p, k + 1, Leaf(Transit));
    WithoutSpec(s.lists[k], b);
    PairAlone(s, o, k);
    assert forall o': nat, k': nat, g :: s'.At(o', k', g) <==>
      if Within(o', k', p, k + 1) then o' == p && k' == k + 1 && g == Transit else s.At(o', k', g);
    assert Within(b, k, p, k + 1) && Within(o, k, p, k + 1);
    forall k': nat, o': nat | k' <= s'.top ensures o' in s'.lists[k'] <==> s'.At(o', k', Free) {
      if k' == k { assert o' in s'.lists[k'] <==> o' in s.lists[k] && o' != b; }
      else { assert s'.lists[k'] == s.lists[k']; }
    }
  }

  /** Inside the parent's range there are only the two buddies. */
  lemma PairAlone(s: Heap, o: nat, k: nat)
    requires WellFormed(s.tree, s.top) && k < s.top
    requires s.At(o, k, Transit) && s.At(Buddy(o, k), k, Free)
    ensures forall o': nat, k': nat, g :: Within(o', k', Parent(o, k), k + 1) && s.At(o', k', g) ==>
      k' == k && ((o' == o && g == Transit) || (o' == Buddy(o, k) && g == Free))
  {
    SiblingsAt(s.tree, s.top, 0, o, k);
    var p, b := Parent(o, k), Buddy(o, k);
    BlockAlone(s, o, k, Transit);
    BlockAlone(s, b, k, Free);
    forall o': nat, k': nat, g | Within(o', k', p, k + 1) && s.At(o', k', g)
      ensures k' == k && ((o' == o && g == Transit) || (o' == b && g == Free))
    {
      BlocksDisjoint(s.tree, s.top, 0, o, k, Transit, o', k', g);
      BlocksDisjoint(s.tree, s.top, 0, b, k, Free, o', k', g);
      assert BlockSize(k + 1) == 2 * BlockSize(k);
      assert BlockSize(k') >= 16;
    }
  }
}

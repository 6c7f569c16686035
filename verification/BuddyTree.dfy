/** The dyadic tiling behind the buddy allocator (Kernel/memory_manager/buddy.c).

    A tree of order K over the bytes [a, a + BlockSize(K)) is either one block or two
    halves of order K - 1. Offsets are relative to the start of the heap. */
module BuddyTree {
  import opened Wrappers
  import opened Bits

  /** A block handed to a user, a block on a free list, or the one block that a
      running malloc or free has taken off the lists and not placed yet. */
  datatype Tag = Live | Free | Transit

  datatype Tree = Leaf(tag: Tag) | Split(left: Tree, right: Tree)

  const MIN_ALLOC_LOG2 := 4
  const HEADER_BYTES := 24

  /** Bytes in a block of order k: 16, 32, 64, ... */
  function BlockSize(k: nat): (r: nat)
    ensures r >= 16
  {
    if k == 0 then 16 else 2 * BlockSize(k - 1)
  }

  lemma {:induction false} BlockSizeIsPow2(k: nat)
    ensures BlockSize(k) == Pow2(MIN_ALLOC_LOG2 + k)
  {
    if k == 0 {
      assert Pow2(4) == 2 * Pow2(3) == 4 * Pow2(2);
    } else {
      BlockSizeIsPow2(k - 1);
    }
  }

  /** getBuddyBlock: flip the bit of the block's own size. */
  function Buddy(o: nat, k: nat): nat { Xor(o, Pow2(MIN_ALLOC_LOG2 + k)) }

  /** getBlockAddress: clear that bit. */
  function Parent(o: nat, k: nat): nat { AndNot(o, Pow2(MIN_ALLOC_LOG2 + k)) }

  /** The subtree that starts at offset o and has order k, if there is one. */
  function Sub(t: Tree, K: nat, a: nat, o: nat, k: nat): (r: Option<Tree>)
    ensures r.Some? ==> k <= K && a <= o && o + BlockSize(k) <= a + BlockSize(K)
    decreases t
  {
    if k > K then None
    else if k == K then (if o == a then Some(t) else None)
    else match t
      case Leaf(_) => None
      case Split(l, r) =>
        var mid := a + BlockSize(K - 1);
        if o < mid then Sub(l, K - 1, a, o, k) else Sub(r, K - 1, mid, o, k)
  }

  predicate Has(t: Tree, K: nat, a: nat, o: nat, k: nat, tag: Tag) {
    Sub(t, K, a, o, k) == Some(Leaf(tag))
  }

  /** The tree with the subtree at (o, k) replaced by s. */
  function Put(t: Tree, K: nat, a: nat, o: nat, k: nat, s: Tree): (r: Tree)
    requires Sub(t, K, a, o, k).Some?
    ensures Sub(r, K, a, o, k) == Some(s)
    decreases t
  {
    if k == K then s
    else
      var mid := a + BlockSize(K - 1);
      if o < mid then Split(Put(t.left, K - 1, a, o, k, s), t.right)
      else Split(t.left, Put(t.right, K - 1, mid, o, k, s))
  }

  /** Every block has order 1 or more, so its 32 bytes hold a header. */
  predicate WellFormed(t: Tree, K: nat) {
    match t
    case Leaf(_) => K >= 1
    case Split(l, r) => K >= 2 && WellFormed(l, K - 1) && WellFormed(r, K - 1)
  }

  /** No two buddies of equal order are both free. */
  predicate Coalesced(t: Tree) {
    match t
    case Leaf(_) => true
    case Split(l, r) => Coalesced(l) && Coalesced(r) && !(l == Leaf(Free) && r == Leaf(Free))
  }

  /** What splitting a block of order f down to order k leaves: the leftmost block of
      order k, and one free block of each order in between. */
  function Spine(f: nat, k: nat, tag: Tag): Tree
    requires k <= f
  {
    if k == f then Leaf(tag) else Split(Spine(f - 1, k, tag), Leaf(Free))
  }

  function Join(l: Tree, r: Tree): Tree {
    if l == Leaf(Free) && r == Leaf(Free) then Leaf(Free) else Split(l, r)
  }

  /** The subtree at (o, k) becomes free and every pair of free buddies is joined,
      from that block up to the root. */
  function Release(t: Tree, K: nat, a: nat, o: nat, k: nat): Tree
    requires Sub(t, K, a, o, k).Some?
    decreases t
  {
    if k == K then Leaf(Free)
    else
      var mid := a + BlockSize(K - 1);
      if o < mid then Join(Release(t.left, K - 1, a, o, k), t.right)
      else Join(t.left, Release(t.right, K - 1, mid, o, k))
  }

  // ---------------------------------------------------------------- alignment

  predicate BitOf(o: nat, k: nat) { BitSet(o, MIN_ALLOC_LOG2 + k) }

  lemma AlignedHalves(a: nat, K: nat)
    requires K >= 1 && a % BlockSize(K) == 0
    ensures var mid := a + BlockSize(K - 1);
      && a % BlockSize(K - 1) == 0 && mid % BlockSize(K - 1) == 0
      && !BitOf(a, K - 1) && BitOf(mid, K - 1)
  {
    BlockSizeIsPow2(K - 1);
    var h := BlockSize(K - 1);
    EvenMultiple(a, h);
  }

  lemma EvenMultiple(a: nat, h: nat)
    requires h > 0 && a % (2 * h) == 0
    ensures a % h == 0 && (a + h) % h == 0 && (a / h) % 2 == 0 && ((a + h) / h) % 2 == 1
  {
    var q := a / (2 * h);
    var m := 2 * q;
    assert a == m * h by {
      assert a == (2 * h) * q;
      Regroup(2, h, q);
    }
    assert (m + 1) * h == m * h + h;
    DivUnique(a, h, m, 0);
    DivUnique(a + h, h, m + 1, 0);
  }

  lemma Regroup(x: nat, y: nat, z: nat)
    ensures (x * y) * z == (x * z) * y
  {}

  lemma {:induction false} SubAligned(t: Tree, K: nat, a: nat, o: nat, k: nat)
    requires a % BlockSize(K) == 0 && Sub(t, K, a, o, k).Some?
    ensures o % BlockSize(k) == 0
    decreases t
  {
    if k == K {
    } else {
      AlignedHalves(a, K);
      var mid := a + BlockSize(K - 1);
      if o < mid { SubAligned(t.left, K - 1, a, o, k); } else { SubAligned(t.right, K - 1, mid, o, k); }
    }
  }

  /** The two children of a node, as the masks of the source compute them: the buddy
      of one is the other, and both have the node's own offset as parent. */
  lemma MasksAt(p: nat, k: nat)
    requires p % BlockSize(k + 1) == 0
    ensures Buddy(p, k) == p + BlockSize(k) && Buddy(p + BlockSize(k), k) == p
    ensures Parent(p, k) == p && Parent(p + BlockSize(k), k) == p
  {
    hide Xor, AndNot, BitSet, Pow2, BlockSize;
    AlignedHalves(p, k + 1);
    BlockSizeIsPow2(k);
    MasksOfBit(p, MIN_ALLOC_LOG2 + k);
    MasksOfBit(p + BlockSize(k), MIN_ALLOC_LOG2 + k);
  }

  /** For every block offset: taking the buddy twice is the identity, and a block and
      its buddy have the same parent. */
  lemma BuddyInvolution(o: nat, k: nat)
    requires o % BlockSize(k) == 0
    ensures Buddy(Buddy(o, k), k) == o
    ensures Parent(Buddy(o, k), k) == Parent(o, k)
    ensures Buddy(o, k) != o && Buddy(o, k) % BlockSize(k) == 0
    ensures Parent(o, k) % BlockSize(k + 1) == 0
  {
    var h := BlockSize(k);
    var p := EvenBelow(o, h);
    MasksAt(p, k);
    EvenMultiple(p, h);
  }

  /** The blocks of order k at o and b are the two halves of the one at p. */
  predicate Halves(o: nat, b: nat, p: nat, k: nat) {
    p % BlockSize(k + 1) == 0 && ((o == p && b == p + BlockSize(k)) || (b == p && o == p + BlockSize(k)))
  }

  /** The masks as arithmetic, for every block offset. */
  lemma MasksAreHalves(o: nat, k: nat)
    requires o % BlockSize(k) == 0
    ensures Halves(o, Buddy(o, k), Parent(o, k), k)
  {
    hide Buddy, Parent;
    var p := EvenBelow(o, BlockSize(k));
    MasksAt(p, k);
  }

  lemma EvenBelow(o: nat, h: nat) returns (p: nat)
    requires h > 0 && o % h == 0
    ensures (o == p || o == p + h) && p % (2 * h) == 0
  {
    var q := o / h;
    assert o == h * q;
    var m := q / 2;
    assert q == 2 * m || q == 2 * m + 1;
    p := m * (2 * h);
    assert h * (2 * m) == p by { Regroup(2, h, m); }
    assert h * (2 * m + 1) == h * (2 * m) + h;
    DivUnique(p, 2 * h, m, 0);
  }

  /** A node below the root has a parent node in the tree, whose two children are the
      node itself and the node at its buddy address. */
  lemma {:induction false} SiblingsAt(t: Tree, K: nat, a: nat, o: nat, k: nat)
    requires a % BlockSize(K) == 0 && k < K && Sub(t, K, a, o, k).Some?
    ensures var p, b := Parent(o, k), Buddy(o, k);
      && Sub(t, K, a, p, k + 1).Some? && Sub(t, K, a, p, k + 1).value.Split?
      && var s := Sub(t, K, a, p, k + 1).value;
      && ((o == p && b == p + BlockSize(k) && Sub(t, K, a, o, k) == Some(s.left) && Sub(t, K, a, b, k) == Some(s.right))
          || (b == p && o == p + BlockSize(k) && Sub(t, K, a, o, k) == Some(s.right)
             && Sub(t, K, a, b, k) == Some(s.left)))
    decreases t
  {
    AlignedHalves(a, K);
    var mid := a + BlockSize(K - 1);
    if k + 1 == K {
      MasksAt(a, k);
      assert o == a || o == mid;
    } else if o < mid {
      SiblingsAt(t.left, K - 1, a, o, k);
    } else {
      SiblingsAt(t.right, K - 1, mid, o, k);
    }
  }

  /** The buddy of a node in one half is in that half, or is the other half itself. */
  lemma BuddyInHalf(t: Tree, K: nat, a: nat, o: nat, k: nat)
    requires a % BlockSize(K) == 0 && k < K && Sub(t, K, a, o, k).Some?
    ensures var mid := a + BlockSize(K - 1);
      && a % BlockSize(K - 1) == 0 && mid % BlockSize(K - 1) == 0
      && (k + 1 == K && o < mid ==> Sub(t, K, a, Buddy(o, k), k) == Some(t.right))
      && (k + 1 == K && mid <= o ==> Sub(t, K, a, Buddy(o, k), k) == Some(t.left))
      && (k + 1 < K && o < mid ==> Sub(t, K, a, Buddy(o, k), k) == Sub(t.left, K - 1, a, Buddy(o, k), k))
      && (k + 1 < K && mid <= o ==> Sub(t, K, a, Buddy(o, k), k) == Sub(t.right, K - 1, mid, Buddy(o, k), k))
  {
    AlignedHalves(a, K);
    var mid := a + BlockSize(K - 1);
    if k + 1 == K { MasksAt(a, k); }
    else if o < mid { SiblingsAt(t.left, K - 1, a, o, k); }
    else { SiblingsAt(t.right, K - 1, mid, o, k); }
  }

  // ---------------------------------------------------------------- replacing a subtree

  predicate Within(o': nat, k': nat, o: nat, k: nat) {
    k' <= k && o <= o' < o + BlockSize(k)
  }

  /** Replacing the subtree at (o, k) changes the blocks inside its range, and none outside. */
  lemma {:induction false} PutHas(t: Tree, K: nat, a: nat, o: nat, k: nat, s: Tree, o': nat, k': nat, tag: Tag)
    requires Sub(t, K, a, o, k).Some?
    ensures Has(Put(t, K, a, o, k, s), K, a, o', k', tag) <==>
            if Within(o', k', o, k) then Has(s, k, o, o', k', tag) else Has(t, K, a, o', k', tag)
    decreases t
  {
    if k == K {
      if Within(o', k', o, k) {
      } else if Has(s, k, o, o', k', tag) {
      }
    } else {
      var mid := a + BlockSize(K - 1);
      if o < mid { PutHas(t.left, K - 1, a, o, k, s, o', k', tag); }
      else { PutHas(t.right, K - 1, mid, o, k, s, o', k', tag); }
    }
  }

  lemma {:induction false} PutTwice(t: Tree, K: nat, a: nat, o: nat, k: nat, s: Tree, o': nat, k': nat, s': Tree)
    requires Sub(t, K, a, o, k).Some? && Sub(s, k, o, o', k').Some?
    ensures Sub(Put(t, K, a, o, k, s), K, a, o', k') == Sub(s, k, o, o', k')
    ensures Put(Put(t, K, a, o, k, s), K, a, o', k', s') == Put(t, K, a, o, k, Put(s, k, o, o', k', s'))
    decreases t
  {
    if k == K {
    } else {
      var mid := a + BlockSize(K - 1);
      if o < mid { PutTwice(t.left, K - 1, a, o, k, s, o', k', s'); }
      else { PutTwice(t.right, K - 1, mid, o, k, s, o', k', s'); }
    }
  }

  lemma {:induction false} PutWellFormed(t: Tree, K: nat, a: nat, o: nat, k: nat, s: Tree)
    requires WellFormed(t, K) && Sub(t, K, a, o, k).Some? && WellFormed(s, k)
    ensures WellFormed(Put(t, K, a, o, k, s), K)
    decreases t
  {
    if k == K {
    } else {
      var mid := a + BlockSize(K - 1);
      if o < mid { PutWellFormed(t.left, K - 1, a, o, k, s); }
      else { PutWellFormed(t.right, K - 1, mid, o, k, s); }
    }
  }

  lemma {:induction false} PutCoalesced(t: Tree, K: nat, a: nat, o: nat, k: nat, s: Tree)
    requires a % BlockSize(K) == 0 && Sub(t, K, a, o, k).Some?
    requires Coalesced(t) && Coalesced(s)
    requires s == Leaf(Free) && k < K ==> !Has(t, K, a, Buddy(o, k), k, Free)
    ensures Coalesced(Put(t, K, a, o, k, s))
    decreases t
  {
    if k == K {
    } else {
      var mid := a + BlockSize(K - 1);
      BuddyInHalf(t, K, a, o, k);
      if o < mid { PutCoalesced(t.left, K - 1, a, o, k, s); }
      else { PutCoalesced(t.right, K - 1, mid, o, k, s); }
    }
  }

  // ---------------------------------------------------------------- tiling

  lemma {:induction false} HasBounds(t: Tree, K: nat, a: nat, o: nat, k: nat, tag: Tag)
    requires WellFormed(t, K) && a % BlockSize(K) == 0 && Has(t, K, a, o, k, tag)
    ensures 1 <= k <= K && a <= o && o + BlockSize(k) <= a + BlockSize(K)
    ensures o % BlockSize(k) == 0
    decreases t
  {
    SubAligned(t, K, a, o, k);
    if k == K {
    } else {
      AlignedHalves(a, K);
      var mid := a + BlockSize(K - 1);
      if o < mid { HasBounds(t.left, K - 1, a, o, k, tag); }
      else { HasBounds(t.right, K - 1, mid, o, k, tag); }
    }
  }

  /** Any two blocks are the same block or do not overlap. */
  lemma {:induction false} BlocksDisjoint(t: Tree, K: nat, a: nat, o1: nat, k1: nat, g1: Tag, o2: nat, k2: nat, g2: Tag)
    requires Has(t, K, a, o1, k1, g1) && Has(t, K, a, o2, k2, g2)
    ensures (o1 == o2 && k1 == k2 && g1 == g2) || o1 + BlockSize(k1) <= o2 || o2 + BlockSize(k2) <= o1
    decreases t
  {
    if t.Leaf? {
    } else {
      var mid := a + BlockSize(K - 1);
      if o1 < mid && o2 < mid { BlocksDisjoint(t.left, K - 1, a, o1, k1, g1, o2, k2, g2); }
      else if mid <= o1 && mid <= o2 { BlocksDisjoint(t.right, K - 1, mid, o1, k1, g1, o2, k2, g2); }
    }
  }

  /** Every byte of the heap lies in a block. */
  lemma {:induction false} BlocksCover(t: Tree, K: nat, a: nat, x: nat) returns (o: nat, k: nat, tag: Tag)
    requires WellFormed(t, K) && a <= x < a + BlockSize(K)
    ensures Has(t, K, a, o, k, tag) && o <= x < o + BlockSize(k)
    decreases t
  {
    match t
    case Leaf(g) => o, k, tag := a, K, g;
    case Split(l, r) =>
      var mid := a + BlockSize(K - 1);
      if x < mid { o, k, tag := BlocksCover(l, K - 1, a, x); }
      else { o, k, tag := BlocksCover(r, K - 1, mid, x); }
  }

  /** The leftmost block of a subtree starts where the subtree starts. */
  lemma {:induction false} FirstBlock(t: Tree, K: nat, a: nat) returns (k: nat, tag: Tag)
    requires WellFormed(t, K)
    ensures k <= K && Has(t, K, a, a, k, tag)
    ensures k == K <==> t.Leaf?
    decreases t
  {
    match t
    case Leaf(g) => k, tag := K, g;
    case Split(l, r) => k, tag := FirstBlock(l, K - 1, a);
  }

  lemma {:induction false} HasThrough(t: Tree, K: nat, a: nat, o: nat, k: nat, s: Tree, o': nat, k': nat, tag: Tag)
    requires Sub(t, K, a, o, k) == Some(s) && Has(s, k, o, o', k', tag)
    ensures Has(t, K, a, o', k', tag)
    decreases t
  {
    if k == K {
    } else {
      var mid := a + BlockSize(K - 1);
      if o < mid { HasThrough(t.left, K - 1, a, o, k, s, o', k', tag); }
      else { HasThrough(t.right, K - 1, mid, o, k, s, o', k', tag); }
    }
  }

  /** What the merge loop of free reads: the buddy address of a block below the maximal
      order is always the start of a current block, of the same or a smaller order. */
  lemma BuddyIsCurrentBlock(t: Tree, K: nat, o: nat, k: nat, tag: Tag) returns (j: nat, g: Tag)
    requires WellFormed(t, K) && Has(t, K, 0, o, k, tag) && k < K
    ensures j <= k && Has(t, K, 0, Buddy(o, k), j, g)
    ensures j == k <==> Has(t, K, 0, Buddy(o, k), k, g)
  {
    SiblingsAt(t, K, 0, o, k);
    var b := Buddy(o, k);
    var s := Sub(t, K, 0, b, k).value;
    SubWellFormed(t, K, 0, b, k);
    j, g := FirstBlock(s, k, b);
    HasThrough(t, K, 0, b, k, s, b, j, g);
  }

  lemma {:induction false} SubWellFormed(t: Tree, K: nat, a: nat, o: nat, k: nat)
    requires WellFormed(t, K) && Sub(t, K, a, o, k).Some?
    ensures WellFormed(Sub(t, K, a, o, k).value, k)
    decreases t
  {
    if k == K {
    } else {
      var mid := a + BlockSize(K - 1);
      if o < mid { SubWellFormed(t.left, K - 1, a, o, k); } else { SubWellFormed(t.right, K - 1, mid, o, k); }
    }
  }

  // ---------------------------------------------------------------- release

  /** Joining with a free buddy and releasing the parent is the same release. */
  lemma {:induction false} ReleaseUp(t: Tree, K: nat, a: nat, o: nat, k: nat)
    requires a % BlockSize(K) == 0 && k < K && Sub(t, K, a, o, k).Some?
    requires Has(t, K, a, Buddy(o, k), k, Free)
    ensures Sub(t, K, a, Parent(o, k), k + 1).Some?
    ensures Release(t, K, a, o, k) == Release(t, K, a, Parent(o, k), k + 1)
    decreases t
  {
    var mid := a + BlockSize(K - 1);
    if k + 1 == K {
      ReleaseWhole(t, K, a, o, k);
    } else {
      SiblingsAt(t, K, a, o, k);
      BuddyInHalf(t, K, a, o, k);
      if o < mid { ReleaseUp(t.left, K - 1, a, o, k); } else { ReleaseUp(t.right, K - 1, mid, o, k); }
    }
  }

  lemma ReleaseWhole(t: Tree, K: nat, a: nat, o: nat, k: nat)
    requires a % BlockSize(K) == 0 && k + 1 == K && Sub(t, K, a, o, k).Some?
    requires Has(t, K, a, Buddy(o, k), k, Free)
    ensures Sub(t, K, a, Parent(o, k), K).Some?
    ensures Release(t, K, a, o, k) == Release(t, K, a, Parent(o, k), K)
  {
    SiblingsAt(t, K, a, o, k);
    BuddyInHalf(t, K, a, o, k);
    MasksAt(a, k);
  }

  /** Without a free buddy, releasing a block changes nothing else. */
  lemma {:induction false} ReleaseStops(t: Tree, K: nat, a: nat, o: nat, k: nat)
    requires a % BlockSize(K) == 0 && Sub(t, K, a, o, k).Some?
    requires k < K ==> !Has(t, K, a, Buddy(o, k), k, Free)
    ensures Release(t, K, a, o, k) == Put(t, K, a, o, k, Leaf(Free))
    ensures k < K ==> Release(t, K, a, o, k).Split?
    decreases t
  {
    if k == K {
    } else {
      var mid := a + BlockSize(K - 1);
      BuddyInHalf(t, K, a, o, k);
      if k + 1 < K {
        if o < mid { ReleaseStops(t.left, K - 1, a, o, k); } else { ReleaseStops(t.right, K - 1, mid, o, k); }
      }
    }
  }

  lemma {:induction false} ReleasePut(t: Tree, K: nat, a: nat, o: nat, k: nat, s: Tree)
    requires Sub(t, K, a, o, k).Some?
    ensures Release(Put(t, K, a, o, k, s), K, a, o, k) == Release(t, K, a, o, k)
    decreases t
  {
    if k == K {
    } else {
      var mid := a + BlockSize(K - 1);
      if o < mid { ReleasePut(t.left, K - 1, a, o, k, s); } else { ReleasePut(t.right, K - 1, mid, o, k, s); }
    }
  }

  // ---------------------------------------------------------------- canonical form

  predicate OnlyFree(t: Tree) {
    match t
    case Leaf(g) => g == Free
    case Split(l, r) => OnlyFree(l) && OnlyFree(r)
  }

  lemma {:induction false} OnlyFreeIsWhole(t: Tree)
    requires OnlyFree(t) && Coalesced(t)
    ensures t == Leaf(Free)
  {
    match t
    case Leaf(_) =>
    case Split(l, r) =>
      OnlyFreeIsWhole(l);
      OnlyFreeIsWhole(r);
  }

  lemma {:induction false} NothingElse(t: Tree, K: nat, a: nat)
    requires WellFormed(t, K)
    requires forall o: nat, k: nat, g :: Has(t, K, a, o, k, g) ==> g == Free
    ensures OnlyFree(t)
    decreases t
  {
    match t
    case Leaf(g) => assert Has(t, K, a, a, K, g);
    case Split(l, r) =>
      var h := K - 1;
      var mid := a + BlockSize(h);
      forall o: nat, k: nat, g | Has(l, h, a, o, k, g) ensures g == Free {
        assert Has(t, K, a, o, k, g);
      }
      NothingElse(l, h, a);
      forall o: nat, k: nat, g | Has(r, h, mid, o, k, g) ensures g == Free {
        assert Has(t, K, a, o, k, g);
      }
      NothingElse(r, h, mid);
  }

  /** A coalesced heap whose every block is free is one block of maximal order. */
  lemma AllFreeIsOneBlock(t: Tree, K: nat)
    requires WellFormed(t, K) && Coalesced(t)
    requires forall o: nat, k: nat, g :: Has(t, K, 0, o, k, g) ==> g == Free
    ensures t == Leaf(Free)
  {
    NothingElse(t, K, 0);
    OnlyFreeIsWhole(t);
  }
}

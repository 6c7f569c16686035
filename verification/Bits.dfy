/** Bit arithmetic on natural numbers: powers of two, and the two masks with which
    the buddy allocator moves between a block, its buddy and its parent. */
module Bits {

  function Pow2(n: nat): (r: nat)
    ensures r >= 1
  {
    if n == 0 then 1 else 2 * Pow2(n - 1)
  }

  /** Bitwise exclusive or, bit by bit from the lowest one. */
  function Xor(a: nat, b: nat): nat
    decreases a + b
  {
    if a == 0 && b == 0 then 0
    else (if a % 2 != b % 2 then 1 else 0) + 2 * Xor(a / 2, b / 2)
  }

  /** Bitwise a & ~b. */
  function AndNot(a: nat, b: nat): nat
  {
    if a == 0 then 0
    else (if a % 2 == 1 && b % 2 == 0 then 1 else 0) + 2 * AndNot(a / 2, b / 2)
  }

  /** Bitwise a & b. */
  function And(a: nat, b: nat): nat
  {
    if a == 0 then 0
    else (if a % 2 == 1 && b % 2 == 1 then 1 else 0) + 2 * And(a / 2, b / 2)
  }

  predicate BitSet(a: nat, n: nat) { (a / Pow2(n)) % 2 == 1 }

  /** Number of bits minus one, and -1 for zero. */
  function Log2Of(number: nat): (r: int)
    ensures r >= -1
    ensures number == 0 <==> r == -1
  {
    if number == 0 then -1 else 1 + Log2Of(number / 2)
  }

  lemma {:induction false} Log2Bounds(number: nat)
    requires number > 0
    ensures Pow2(Log2Of(number)) <= number < Pow2(Log2Of(number) + 1)
  {
    if number == 1 {
    } else {
      Log2Bounds(number / 2);
    }
  }

  lemma {:induction false} Pow2Monotone(a: nat, b: nat)
    requires a <= b
    ensures Pow2(a) <= Pow2(b)
    decreases b - a
  {
    if a == b {
    } else {
      Pow2Monotone(a + 1, b);
    }
  }

  lemma {:induction false} Pow2Strict(a: nat, b: nat)
    ensures a < b <==> Pow2(a) < Pow2(b)
  {
    if a < b {
      Pow2Monotone(a + 1, b);
    } else {
      Pow2Monotone(b, a);
    }
  }

  lemma {:induction false} XorZero(a: nat)
    ensures Xor(a, 0) == a
  {
    if a == 0 {
    } else {
      XorZero(a / 2);
    }
  }

  lemma {:induction false} AndNotZero(a: nat)
    ensures AndNot(a, 0) == a
  {
    if a == 0 {
    } else {
      AndNotZero(a / 2);
    }
  }

  lemma HalvePow(a: nat, n: nat)
    requires n > 0
    ensures (a / 2) / Pow2(n - 1) == a / Pow2(n)
  {
    var p := Pow2(n - 1);
    var q, r := a / (2 * p), a % (2 * p);
    assert a == 2 * (q * p) + r;
    assert a / 2 == q * p + r / 2;
    assert 0 <= r / 2 < p;
    DivUnique(a / 2, p, q, r / 2);
  }

  lemma TimesGap(a: nat, b: nat, d: nat)
    requires a < b
    ensures a * d + d <= b * d
  {
    var g := b - a - 1;
    assert b * d == a * d + d + g * d by {
      assert b == a + 1 + g;
    }
    assert g * d >= 0;
  }

  lemma DivUnique(x: nat, d: nat, q: nat, r: nat)
    requires d > 0 && x == q * d + r && r < d
    ensures x / d == q && x % d == r
  {
    var q', r' := x / d, x % d;
    assert x == d * q' + r';
    assert d * q' == q' * d;
    if q' < q {
      TimesGap(q', q, d);
      assert false;
    } else if q' > q {
      TimesGap(q, q', d);
      assert false;
    }
  }

  lemma LowBitStep(h: nat, r: nat, c: nat)
    requires r < 2
    ensures Xor(2 * h + r, 2 * c) == r + 2 * Xor(h, c)
    ensures AndNot(2 * h + r, 2 * c) == r + 2 * AndNot(h, c)
  {
    assert (2 * h + r) / 2 == h && (2 * h + r) % 2 == r;
    assert (2 * c) / 2 == c && (2 * c) % 2 == 0;
  }

  lemma LowBit(h: nat, r: nat)
    requires r < 2
    ensures Xor(2 * h + r, 1) == 2 * h + 1 - r
    ensures AndNot(2 * h + r, 1) == 2 * h
  {
    assert (2 * h + r) / 2 == h && (2 * h + r) % 2 == r;
    XorZero(h);
    AndNotZero(h);
  }

  lemma BitSetHalf(a: nat, n: nat)
    requires n > 0
    ensures BitSet(a, n) == BitSet(a / 2, n - 1)
  {
    HalvePow(a, n);
  }

  /** Flipping bit n adds 2^n when it is clear and subtracts it when it is set; masking it
      out subtracts 2^n when it is set and changes nothing otherwise. */
  lemma {:induction false} MasksOfBit(a: nat, n: nat)
    ensures BitSet(a, n) ==> a >= Pow2(n)
    ensures Xor(a, Pow2(n)) == if BitSet(a, n) then a - Pow2(n) else a + Pow2(n)
    ensures AndNot(a, Pow2(n)) == if BitSet(a, n) then a - Pow2(n) else a
    decreases n
  {
    var h, r := a / 2, a % 2;
    assert a == 2 * h + r;
    if n == 0 {
      LowBit(h, r);
      assert Pow2(0) == 1;
      assert a / 1 == a;
    } else {
      BitSetHalf(a, n);
      MasksOfBit(h, n - 1);
      LowBitStep(h, r, Pow2(n - 1));
      hide Xor, AndNot, BitSet;
      assert Pow2(n) == 2 * Pow2(n - 1);
    }
  }

  lemma AndPredecessor(h: nat)
    ensures h > 0 ==> And(2 * h, 2 * h - 1) == 2 * And(h, h - 1)
    ensures And(2 * h + 1, 2 * h) == 2 * h
  {
    AndSelf(h);
    assert (2 * h + 1) / 2 == h && (2 * h) / 2 == h && (2 * h) % 2 == 0;
    if h > 0 { assert (2 * h - 1) / 2 == h - 1; }
  }

  lemma Log2Step(h: nat)
    requires h > 0
    ensures Log2Of(2 * h) == Log2Of(2 * h + 1) == 1 + Log2Of(h)
    ensures Pow2(1 + Log2Of(h)) == 2 * Pow2(Log2Of(h))
  {
    assert (2 * h + 1) / 2 == h && (2 * h) / 2 == h;
  }

  /** The test n & (n - 1) == 0 recognises the powers of two. */
  lemma {:induction false} PowerOfTwoTest(n: nat)
    requires n > 0
    ensures And(n, n - 1) == 0 <==> n == Pow2(Log2Of(n))
    decreases n
  {
    var h := n / 2;
    if n == 1 {
    } else {
      AndPredecessor(h);
      Log2Step(h);
      if n == 2 * h { PowerOfTwoTest(h); } else { assert n == 2 * h + 1; }
    }
  }

  lemma {:induction false} AndSelf(n: nat)
    ensures And(n, n) == n
  {
    if n == 0 {
    } else {
      AndSelf(n / 2);
    }
  }
}

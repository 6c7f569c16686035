/** Printing and parsing of numbers: uintToBase of Kernel/naiveConsole.c, _itoa, _atoi and
    strToHex of Userland/SampleCodeModule/lib/ustdlib.c. */
module Numerals {
  const NUL := '\0'

  // ---------------------------------------------------------------- division

  lemma StepUp(a: int, b: int, k: nat)
    requires a < b
    ensures a * k + k <= b * k
  {
    assert (b - a - 1) * k >= 0;
  }

  /** A quotient and a remainder are determined by the number, and compare as it does. */
  lemma SameQuotient(p: int, r: nat, q: int, d: nat, base: nat)
    requires r < base && d < base
    ensures p * base + r == q * base + d ==> p == q && r == d
    ensures p < q <==> p * base + r < q * base
  {
    if p < q {
      StepUp(p, q, base);
    } else if q < p {
      StepUp(q, p, base);
    }
  }

  lemma DivideBack(v: nat, base: nat)
    requires base > 0
    ensures Div(v, base) * base + Mod(v, base) == v
  {}

  /** Unsigned division, for a base that is a variable. */
  function Div(v: nat, base: nat): (q: nat)
    requires base > 0
    ensures v < base ==> q == 0
    ensures 2 <= base <= v ==> 0 < q < v
  {
    Quotient(v, v / base, v % base, base);
    v / base
  }

  function Mod(v: nat, base: nat): (r: nat)
    requires base > 0
    ensures r < base
  {
    v % base
  }

  lemma Quotient(v: nat, q: int, r: nat, base: nat)
    requires v == q * base + r && r < base
    ensures v < base ==> q == 0
    ensures 2 <= base <= v ==> 0 < q < v
  {
    if v < base {
      SameQuotient(q, r, 0, v, base);
    } else if base >= 2 {
      SameQuotient(q, r, 1, 0, base);
      assert q * base == q * (base - 1) + q;
      StepUp(0, base - 1, q);
    }
  }

  // ---------------------------------------------------------------- numerals

  function DigitChar(d: nat): (c: char)
    requires d < 36
  {
    if d < 10 then ('0' as int + d) as char else ('A' as int + d - 10) as char
  }

  predicate IsDecimal(c: char) { '0' <= c <= '9' }

  predicate IsHex(c: char) { IsDecimal(c) || 'A' <= c <= 'F' || 'a' <= c <= 'f' }

  /** What a character stands for; 36 for one that is no digit of any base up to 36. */
  function DigitOf(c: char): (d: nat)
    ensures d <= 36
  {
    if IsDecimal(c) then c as int - '0' as int
    else if 'A' <= c <= 'Z' then c as int - 'A' as int + 10
    else if 'a' <= c <= 'z' then c as int - 'a' as int + 10
    else 36
  }

  /** The number a string of digits denotes, most significant digit first. */
  function Value(s: seq<char>, base: nat): nat {
    if s == [] then 0 else Value(s[..|s| - 1], base) * base + DigitOf(s[|s| - 1])
  }

  /** The numeral of v. */
  function Digits(v: nat, base: nat): (s: seq<char>)
    requires 2 <= base <= 36
    ensures |s| > 0
  {
    if v < base then [DigitChar(v)] else Digits(Div(v, base), base) + [DigitChar(Mod(v, base))]
  }

  /** A string in the printers' own alphabet, with no leading zero unless it is all there is. */
  predicate IsNumeral(s: seq<char>, base: nat) {
    && s != []
    && (forall i :: 0 <= i < |s| ==> (IsDecimal(s[i]) || 'A' <= s[i] <= 'Z') && DigitOf(s[i]) < base)
    && (|s| > 1 ==> s[0] != '0')
  }

  /** Printing loses nothing and pads nothing. */
  lemma {:induction false} DigitsDenote(v: nat, base: nat)
    requires 2 <= base <= 36
    ensures Value(Digits(v, base), base) == v
    ensures IsNumeral(Digits(v, base), base)
    ensures v > 0 ==> Digits(v, base)[0] != '0'
  {
    var s := Digits(v, base);
    if v >= base {
      DivideBack(v, base);
      DigitsDenote(Div(v, base), base);
      assert s[..|s| - 1] == Digits(Div(v, base), base);
    } else {
      assert s[..|s| - 1] == [];
    }
  }

  lemma {:induction false} PositiveValue(s: seq<char>, base: nat)
    requires base >= 2 && s != [] && 0 < DigitOf(s[0])
    ensures Value(s, base) > 0
  {
    if |s| == 1 {
      assert s[..0] == [];
    } else {
      PositiveValue(s[..|s| - 1], base);
    }
  }

  lemma DigitsOfSum(q: nat, base: nat, d: nat)
    requires 2 <= base <= 36 && d < base && q > 0
    ensures Digits(q * base + d, base) == Digits(q, base) + [DigitChar(d)]
  {
    var v := q * base + d;
    StepUp(0, q, base);
    DivideBack(v, base);
    SameQuotient(Div(v, base), Mod(v, base), q, d, base);
  }

  /** Each number has one numeral only: a string without redundant leading zeros is the
      numeral of the number that it denotes. */
  lemma {:induction false} OnlyNumeral(s: seq<char>, base: nat)
    requires 2 <= base <= 36 && IsNumeral(s, base)
    ensures s == Digits(Value(s, base), base)
  {
    hide Digits, DigitChar, IsDecimal, DigitOf, IsNumeral, Value;
    NumeralParts(s, base);
    var last, front := s[|s| - 1], s[..|s| - 1];
    assert s == front + [last];
    CharBack(last);
    if front == [] {
      OneDigit(DigitOf(last), base);
    } else {
      NotZero(front[0]);
      OnlyNumeral(front, base);
      PositiveValue(front, base);
      DigitsOfSum(Value(front, base), base, DigitOf(last));
    }
  }

  lemma NumeralParts(s: seq<char>, base: nat)
    requires IsNumeral(s, base)
    ensures s != []
    ensures var last, front := s[|s| - 1], s[..|s| - 1];
      && (IsDecimal(last) || 'A' <= last <= 'Z') && DigitOf(last) < base
      && Value(s, base) == Value(front, base) * base + DigitOf(last)
      && (front == [] ==> Value(front, base) == 0)
      && (front != [] ==> IsNumeral(front, base) && (IsDecimal(front[0]) || 'A' <= front[0] <= 'Z') && front[0] != '0')
  {
    hide DigitOf, IsDecimal;
  }

  lemma OneDigit(d: nat, base: nat)
    requires 2 <= base <= 36 && d < base
    ensures Digits(d, base) == [DigitChar(d)]
  {}

  lemma CharBack(c: char)
    requires IsDecimal(c) || 'A' <= c <= 'Z'
    ensures DigitOf(c) < 36 && DigitChar(DigitOf(c)) == c
  {}

  lemma NotZero(c: char)
    ensures IsDecimal(c) || 'A' <= c <= 'Z' ==> (DigitOf(c) > 0 <==> c != '0')
  {}

  // ---------------------------------------------------------------- lengths

  function Power(base: nat, k: nat): nat {
    if k == 0 then 1 else Power(base, k - 1) * base
  }

  lemma {:induction false} LengthBound(v: nat, base: nat, k: nat)
    requires 2 <= base <= 36 && k >= 1
    ensures |Digits(v, base)| <= k <==> v < Power(base, k)
    decreases k
  {
    if v < base {
      LargePower(base, k);
    } else if k > 1 {
      LengthBound(Div(v, base), base, k - 1);
      LengthStep(v, base, Power(base, k - 1));
      assert |Digits(v, base)| == |Digits(Div(v, base), base)| + 1;
    } else {
      assert Power(base, 1) == Power(base, 0) * base;
    }
  }

  lemma LengthStep(v: nat, base: nat, p: nat)
    requires base > 0
    ensures Div(v, base) < p <==> v < p * base
  {
    DivideBack(v, base);
    SameQuotient(Div(v, base), Mod(v, base), p, 0, base);
  }

  lemma {:induction false} LargePower(base: nat, k: nat)
    requires base >= 2 && k >= 1
    ensures Power(base, k) >= base
  {
    if k == 1 {
    } else {
      LargePower(base, k - 1);
      Monotone(1, Power(base, k - 1), base, base);
    }
  }

  lemma {:induction false} LargerBase(b: nat, c: nat, k: nat)
    requires b <= c
    ensures Power(b, k) <= Power(c, k)
  {
    if k == 0 {
    } else {
      LargerBase(b, c, k - 1);
      Monotone(Power(b, k - 1), Power(c, k - 1), b, c);
    }
  }

  lemma Monotone(a: nat, b: nat, c: nat, d: nat)
    requires a <= b && c <= d
    ensures a * c <= b * d
  {
    assert b * d - a * c == (b - a) * d + a * (d - c);
    assert (b - a) * d >= 0 && a * (d - c) >= 0;
  }
}

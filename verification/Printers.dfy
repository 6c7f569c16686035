/** The loops that print and parse: uintToBase of Kernel/naiveConsole.c, which writes the
    digits forwards and then reverses them in place, _itoa, which writes them backwards from
    the end of its buffer, and the parsers _atoi and strToHex of ustdlib.c. */
module Printers {
  import opened Numerals

  const CONSOLE_BUFFER: nat := 64
  const ITOA_BUFFER: nat := 128

  // ---------------------------------------------------------------- printing

  function Reversed(s: seq<char>): (r: seq<char>)
    ensures |r| == |s| && forall i :: 0 <= i < |s| ==> r[i] == s[|s| - 1 - i]
  {
    seq(|s|, i requires 0 <= i < |s| => s[|s| - 1 - i])
  }

  /** uintToBase: the numeral of value and its terminator, for every buffer that has room.
      The rest of the buffer keeps what it held. */
  method UintToBase(value: nat, buffer: array<char>, base: nat) returns (digits: nat)
    requires 2 <= base <= 36 && |Digits(value, base)| < buffer.Length
    modifies buffer
    ensures digits == |Digits(value, base)|
    ensures buffer[..digits] == Digits(value, base) && buffer[digits] == NUL
    ensures buffer[digits + 1..] == old(buffer[digits + 1..])
  {
    digits := WriteBackwards(value, buffer, base);
    buffer[digits] := NUL;
    ReversePrefix(buffer, digits);
    assert buffer[..digits] == Reversed(Reversed(Digits(value, base)));
  }

  /** The first loop: the lowest digit comes first. */
  method WriteBackwards(value: nat, buffer: array<char>, base: nat) returns (digits: nat)
    requires 2 <= base <= 36 && |Digits(value, base)| < buffer.Length
    modifies buffer
    ensures digits == |Digits(value, base)|
    ensures buffer[..digits] == Reversed(Digits(value, base))
    ensures buffer[digits..] == old(buffer[digits..])
  {
    hide Div, Mod, Digits, DigitChar;
    var v: nat, more := value, true;
    ghost var d := Digits(value, base);
    digits := 0;
    while more
      invariant digits <= |d| && d[..|d| - digits] == if more then Digits(v, base) else []
      invariant forall j :: 0 <= j < digits ==> buffer[j] == d[|d| - 1 - j]
      invariant forall j :: digits <= j < buffer.Length ==> buffer[j] == old(buffer[j])
      decreases if more then v + 1 else 0
    {
      LastDigit(v, base);
      var remainder := Mod(v, base);
      buffer[digits] := DigitChar(remainder);
      assert d[|d| - 1 - digits] == d[..|d| - digits][|d| - digits - 1];
      digits := digits + 1;
      v := Div(v, base);
      more := v != 0;
      assert d[..|d| - digits] == d[..|d| - digits + 1][..|d| - digits];
    }
  }

  /** How the loops shorten the numeral that is still to be written. */
  lemma LastDigit(v: nat, base: nat)
    requires 2 <= base <= 36
    ensures Digits(v, base) == (if Div(v, base) != 0 then Digits(Div(v, base), base) else [])
            + [DigitChar(Mod(v, base))]
    ensures Div(v, base) != 0 ==> Div(v, base) < v
  {
    hide Div, Mod;
    DivideBack(v, base);
    SameQuotient(0, Mod(v, base), Div(v, base), 0, base);
  }

  /** The second loop: two pointers swap their characters and close in. */
  method ReversePrefix(buffer: array<char>, n: nat)
    requires 0 < n <= buffer.Length
    modifies buffer
    ensures buffer[..n] == Reversed(old(buffer[..n])) && buffer[n..] == old(buffer[n..])
  {
    ghost var was := buffer[..];
    var p1, p2 := 0, n - 1;
    while p1 < p2
      invariant 0 <= p1 <= p2 + 1 <= n && p1 + p2 == n - 1
      invariant forall k :: 0 <= k < p1 ==> buffer[k] == was[n - 1 - k]
      invariant forall k :: p1 <= k <= p2 ==> buffer[k] == was[k]
      invariant forall k :: p2 < k < n ==> buffer[k] == was[n - 1 - k]
      invariant forall k :: n <= k < buffer.Length ==> buffer[k] == was[k]
    {
      buffer[p1], buffer[p2] := buffer[p2], buffer[p1];
      p1 := p1 + 1;
      p2 := p2 - 1;
    }
  }

  /** _itoa: the numeral ends at ITOA_BUFFER, with its terminator in the byte after the
      128 that the source reserves. */
  method Itoa(num: nat, base: nat, buffer: array<char>) returns (ptr: nat)
    requires 2 <= base <= 16 && num < 0x1_0000_0000_0000_0000 && buffer.Length == ITOA_BUFFER + 1
    modifies buffer
    ensures ptr < ITOA_BUFFER && buffer[ptr..ITOA_BUFFER] == Digits(num, base) && buffer[ITOA_BUFFER] == NUL
  {
    hide Div, Mod, Digits, DigitChar;
    WordLength(num, base);
    ptr := ITOA_BUFFER;
    buffer[ptr] := NUL;
    var v: nat, more := num, true;
    while more
      invariant ptr <= ITOA_BUFFER && buffer[ITOA_BUFFER] == NUL && (!more ==> ptr < ITOA_BUFFER)
      invariant Digits(num, base) == (if more then Digits(v, base) else []) + buffer[ptr..ITOA_BUFFER]
      decreases if more then v + 1 else 0
    {
      LastDigit(v, base);
      ghost var before := buffer[ptr..ITOA_BUFFER];
      ptr := ptr - 1;
      buffer[ptr] := DigitChar(Mod(v, base));
      assert buffer[ptr..ITOA_BUFFER] == [DigitChar(Mod(v, base))] + before;
      v := Div(v, base);
      more := v != 0;
    }
  }

  /** A 64-bit number has at most 64 digits in any base. */
  lemma WordLength(v: nat, base: nat)
    requires 2 <= base <= 36 && v < 0x1_0000_0000_0000_0000
    ensures |Digits(v, base)| <= 64
  {
    TwoTo64();
    LargerBase(2, base, 64);
    LengthBound(v, base, 64);
  }

  lemma PowerAdd(j: nat, k: nat)
    ensures Power(2, j + k) == Power(2, j) * Power(2, k)
  {
    if j > 0 {
      PowerAdd(j - 1, k);
      assert Power(2, j + k) == Power(2, j - 1 + k) * 2;
    }
  }

  lemma TwoTo64()
    ensures Power(2, 64) == 0x1_0000_0000_0000_0000
    ensures Power(2, 63) == 0x8000_0000_0000_0000
  {
    assert Power(2, 4) == 16 by {
      assert Power(2, 2) == Power(2, 1) * 2 && Power(2, 1) == Power(2, 0) * 2;
    }
    PowerAdd(4, 4);
    PowerAdd(8, 8);
    PowerAdd(16, 16);
    PowerAdd(32, 32);
    assert Power(2, 64) == Power(2, 63) * 2;
  }

  /** The console's buffer of 64 characters has room for the digits and the terminator of
      every 64-bit number, except in base 2, where numbers from 2^63 on are one digit too long. */
  lemma ConsoleBufferFits(v: nat, base: nat)
    requires 2 <= base <= 36 && v < 0x1_0000_0000_0000_0000
    ensures |Digits(v, base)| < CONSOLE_BUFFER <==> base > 2 || v < 0x8000_0000_0000_0000
  {
    TwoTo64();
    LengthBound(v, base, 63);
    if base > 2 {
      ThreeTo63();
      LargerBase(3, base, 63);
    }
  }

  /** 3^63 is more than 2^64, since 9 is more than 8. */
  lemma ThreeTo63()
    ensures Power(3, 63) >= Power(2, 64)
  {
    LargerBase(2, 3, 61);
    assert Power(3, 63) == Power(3, 62) * 3 && Power(3, 62) == Power(3, 61) * 3;
    assert Power(2, 64) == Power(2, 63) * 2 && Power(2, 63) == Power(2, 62) * 2 && Power(2, 62) == Power(2, 61) * 2;
  }

  // ---------------------------------------------------------------- parsing

  /** x as a two's complement integer of 2 * half values. */
  function Wrapped(x: int, half: nat): int
    requires half > 0
  {
    (x + half) % (2 * half) - half
  }

  const TWO_31: nat := 0x8000_0000
  const TWO_63: nat := 0x8000_0000_0000_0000

  lemma ModShift(x: int, q: int, m: nat)
    requires m > 0
    ensures (x + q * m) % m == x % m
  {
    var y := x + q * m;
    assert y == y / m * m + y % m && x == x / m * m + x % m;
    assert (x / m + q) * m == x / m * m + q * m;
    SameQuotient(y / m, y % m, x / m + q, x % m, m);
  }

  /** Wrapping between two steps of the accumulation does not show in the result. */
  lemma WrappedOnce(x: int, k: int, d: int, half: nat)
    requires half > 0
    ensures Wrapped(Wrapped(x, half) * k + d, half) == Wrapped(x * k + d, half)
  {
    var m := 2 * half;
    var q := (x + half) / m;
    assert x + half == q * m + (x + half) % m;
    assert Wrapped(x, half) == x - q * m;
    assert (x - q * m) * k == x * k + (-q * k) * m;
    ModShift(x * k + d + half, -q * k, m);
  }

  lemma InRange(x: int, half: nat)
    requires 0 <= x + half < 2 * half
    ensures Wrapped(x, half) == x
  {
    assert (x + half) % (2 * half) == x + half by {
      SameQuotient((x + half) / (2 * half), (x + half) % (2 * half), 0, x + half, 2 * half);
    }
  }

  /** How many characters at the front satisfy ok. */
  function Run(s: seq<char>, ok: char -> bool): (n: nat)
    ensures n <= |s|
    ensures forall i :: 0 <= i < n ==> ok(s[i])
    ensures n < |s| ==> !ok(s[n])
  {
    if s == [] || !ok(s[0]) then 0 else 1 + Run(s[1..], ok)
  }

  lemma {:induction false} RunIs(s: seq<char>, ok: char -> bool, n: nat)
    requires n <= |s| && (forall i :: 0 <= i < n ==> ok(s[i])) && (n < |s| ==> !ok(s[n]))
    ensures Run(s, ok) == n
  {
    if n == 0 {
    } else {
      assert forall i :: 0 <= i < n - 1 ==> s[1..][i] == s[i + 1];
      RunIs(s[1..], ok, n - 1);
    }
  }

  predicate IsBlank(c: char) { c == ' ' }

  function Blanks(s: seq<char>): nat { Run(s, IsBlank) }

  /** What _atoi answers: the digits after the leading blanks, as a 64-bit number. */
  function AtoiOf(str: seq<char>): int {
    var t := str[Blanks(str)..];
    Wrapped(Value(t[..Run(t, IsDecimal)], 10), TWO_63)
  }

  /** What strToHex answers: the hexadecimal number, in either case, as a 32-bit int; -1 if
      anything but hexadecimal digits comes before the terminator. */
  function StrToHexOf(str: seq<char>): int {
    var n := Run(str, IsHex);
    if n < |str| && str[n] == NUL then Wrapped(Value(str[..n], 16), TWO_31) else -1
  }

  method Atoi(str: seq<char>) returns (res: int)
    requires NUL in str
    ensures res == AtoiOf(str)
  {
    hide Wrapped, Value, Run;
    res := 0;
    var i := 0;
    ghost var end :| 0 <= end < |str| && str[end] == NUL;
    while str[i] == ' '
      invariant 0 <= i <= end && forall k :: 0 <= k < i ==> str[k] == ' '
      decreases end - i
    {
      i := i + 1;
    }
    RunIs(str, IsBlank, i);
    ghost var t, start := str[i..], i;
    InRange(0, TWO_63);
    EmptyValue(10);
    while str[i] != NUL && IsDecimal(str[i])
      invariant start <= i <= end && forall k :: 0 <= k < i - start ==> IsDecimal(t[k])
      invariant res == Wrapped(Value(t[..i - start], 10), TWO_63)
      decreases end - i
    {
      DecimalStep(t, i - start);
      res := Wrapped(res * 10 + (str[i] as int - '0' as int), TWO_63);
      i := i + 1;
    }
    RunIs(t, IsDecimal, i - start);
  }

  method StrToHex(str: seq<char>) returns (val: int)
    requires NUL in str
    ensures val == StrToHexOf(str)
  {
    val := 0;
    var p := 0;
    ghost var end :| 0 <= end < |str| && str[end] == NUL;
    InRange(0, TWO_31);
    while str[p] != NUL
      invariant 0 <= p <= end && forall k :: 0 <= k < p ==> IsHex(str[k])
      invariant val == Wrapped(Value(str[..p], 16), TWO_31)
      decreases end - p
    {
      if !IsHex(str[p]) {
        RunIs(str, IsHex, p);
        return -1;
      }
      HexStep(str, p);
      if IsDecimal(str[p]) {
        val := Wrapped(val * 16 + str[p] as int - '0' as int, TWO_31);
      } else if 'A' <= str[p] <= 'F' {
        val := Wrapped(val * 16 + str[p] as int - 'A' as int + 10, TWO_31);
      } else {
        val := Wrapped(val * 16 + str[p] as int - 'a' as int + 10, TWO_31);
      }
      p := p + 1;
    }
    RunIs(str, IsHex, p);
  }

  lemma EmptyValue(base: nat)
    ensures Value([], base) == 0
  {}

  lemma DecimalStep(t: seq<char>, n: nat)
    requires n < |t|
    ensures Wrapped(Wrapped(Value(t[..n], 10), TWO_63) * 10 + DigitOf(t[n]), TWO_63) ==
            Wrapped(Value(t[..n + 1], 10), TWO_63)
  {
    WrappedOnce(Value(t[..n], 10), 10, DigitOf(t[n]), TWO_63);
    assert t[..n + 1][..n] == t[..n];
  }

  lemma HexStep(str: seq<char>, p: nat)
    requires p < |str|
    ensures Wrapped(Wrapped(Value(str[..p], 16), TWO_31) * 16 + DigitOf(str[p]), TWO_31) ==
            Wrapped(Value(str[..p + 1], 16), TWO_31)
  {
    WrappedOnce(Value(str[..p], 16), 16, DigitOf(str[p]), TWO_31);
    assert str[..p + 1][..p] == str[..p];
  }

  // ---------------------------------------------------------------- round trips

  /** _atoi undoes _itoa and uintToBase in base 10, for every number below 2^63 and
      whatever follows, a terminator or anything else that is no digit; blanks in front do not
      matter. */
  lemma AtoiUndoesPrinting(v: nat, blanks: seq<char>, rest: seq<char>)
    requires forall i :: 0 <= i < |blanks| ==> blanks[i] == ' '
    requires rest != [] && !('0' <= rest[0] <= '9')
    ensures AtoiOf(blanks + Digits(v, 10) + rest) == v <==> v < TWO_63
  {
    hide Digits, Run, Value;
    var d := Digits(v, 10);
    var str := blanks + d + rest;
    DigitsDenote(v, 10);
    assert str[|blanks|] == d[0] && DigitOf(d[0]) < 10;
    RunIs(str, IsBlank, |blanks|);
    var t := str[|blanks|..];
    assert t == d + rest;
    forall i | 0 <= i < |d| ensures IsDecimal(t[i]) {
      assert t[i] == d[i] && DigitOf(d[i]) < 10;
    }
    assert t[|d|] == rest[0];
    RunIs(t, IsDecimal, |d|);
    assert t[..|d|] == d;
    if v < TWO_63 {
      InRange(v, TWO_63);
    }
  }

  /** t is s, some of its hexadecimal letters in lower case. */
  predicate LowerIn(s: seq<char>, t: seq<char>) {
    && |t| == |s|
    && forall i :: 0 <= i < |s| ==>
       t[i] == s[i] || ('A' <= s[i] <= 'F' && t[i] as int == s[i] as int - 'A' as int + 'a' as int)
  }

  lemma {:induction false} LowerSameValue(s: seq<char>, t: seq<char>)
    requires LowerIn(s, t)
    ensures Value(s, 16) == Value(t, 16)
  {
    if s == [] {
    } else {
      LowerSameValue(s[..|s| - 1], t[..|t| - 1]);
    }
  }

  /** Anything but a hexadecimal digit in front of the terminator makes it answer -1. */
  lemma StrToHexRejects(s: seq<char>, i: nat)
    requires i < |s| && s[i] != NUL && !('0' <= s[i] <= '9' || 'A' <= s[i] <= 'F' || 'a' <= s[i] <= 'f')
    requires forall j :: 0 <= j < i ==> s[j] != NUL
    ensures StrToHexOf(s) == -1
  {
    var n := Run(s, IsHex);
    assert n <= i;
  }

  /** strToHex reads both cases alike. */
  lemma StrToHexIgnoresCase(s: seq<char>, t: seq<char>)
    requires LowerIn(s, t)
    ensures StrToHexOf(s) == StrToHexOf(t)
  {
    hide Value, Wrapped;
    var n := Run(s, IsHex);
    RunIs(t, IsHex, n);
    LowerSameValue(s[..n], t[..n]);
  }

  /** strToHex undoes printing in base 16 exactly for the numbers that an int can hold. */
  lemma StrToHexUndoesPrinting(v: nat, rest: seq<char>)
    ensures StrToHexOf(Digits(v, 16) + [NUL] + rest) == v <==> v < TWO_31
  {
    hide Digits, Run, Value;
    var d := Digits(v, 16);
    var str := d + [NUL] + rest;
    DigitsDenote(v, 16);
    forall i | 0 <= i < |d| ensures IsHex(str[i]) {
      assert str[i] == d[i] && DigitOf(d[i]) < 16;
    }
    assert str[|d|] == NUL;
    RunIs(str, IsHex, |d|);
    assert str[..|d|] == d;
    if v < TWO_31 {
      InRange(v, TWO_31);
    }
  }
}

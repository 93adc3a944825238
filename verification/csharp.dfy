/** The parts of C#'s integer semantics the model relies on: `/` and `%`
    truncate toward zero, casts to a narrower integer type wrap modulo a power
    of two, and `int.ToString()` renders decimal digits with a leading minus
    sign. Dafny's own `/` and `%` are Euclidean, so every C# division in the
    model goes through `Div` and `Rem` below. */
module CSharp {

  const TwoTo31: int := 0x8000_0000
  const TwoTo32: int := 0x1_0000_0000
  const TwoTo64: int := 0x1_0000_0000_0000_0000

  predicate IsInt32(x: int) {
    -TwoTo31 <= x < TwoTo31
  }

  predicate IsUInt32(x: int) {
    0 <= x < TwoTo32
  }

  predicate IsUInt64(x: int) {
    0 <= x < TwoTo64
  }

  /** C# `a / b` on integers: the quotient truncated toward zero. */
  function Div(a: int, b: int): (q: int)
    requires b != 0
    ensures var r := a - q * b;
      && (r == 0 || (r < 0 <==> a < 0))
      && (if r < 0 then -r else r) < (if b < 0 then -b else b)
  {
    if a >= 0 && b > 0 then a / b
    else if a >= 0 then -(a / -b)
    else if b > 0 then -((-a) / b)
    else (-a) / (-b)
  }

  /** C# `a % b` on integers: the remainder takes the sign of the dividend. */
  function Rem(a: int, b: int): (r: int)
    requires b != 0
    ensures a == Div(a, b) * b + r
    ensures r == 0 || (r < 0 <==> a < 0)
    ensures (if r < 0 then -r else r) < (if b < 0 then -b else b)
  {
    a - Div(a, b) * b
  }

  /** An unchecked conversion to `int`: the value congruent to `x` modulo
      2^32 in the signed 32-bit range. */
  function ToInt32(x: int): (r: int)
    ensures IsInt32(r)
    ensures (r - x) % TwoTo32 == 0
    ensures IsInt32(x) ==> r == x
  {
    var m := x % TwoTo32;
    if m < TwoTo31 then m else m - TwoTo32
  }

  /** An unchecked conversion to `uint`. */
  function ToUInt32(x: int): (r: int)
    ensures IsUInt32(r)
    ensures (r - x) % TwoTo32 == 0
    ensures IsUInt32(x) ==> r == x
  {
    x % TwoTo32
  }

  /** An unchecked conversion to `ulong`. */
  function ToUInt64(x: int): (r: int)
    ensures IsUInt64(r)
    ensures (r - x) % TwoTo64 == 0
    ensures IsUInt64(x) ==> r == x
  {
    x % TwoTo64
  }

  /** 2 to the power `k`. */
  function Pow2(k: nat): (r: nat)
    ensures r >= 1
  {
    if k == 0 then 1 else 2 * Pow2(k - 1)
  }

  /** Exponents add when powers of two multiply. */
  lemma {:induction false} Pow2Add(a: nat, b: nat)
    ensures Pow2(a + b) == Pow2(a) * Pow2(b)
    decreases b
  {
    if b > 0 {
      Pow2Add(a, b - 1);
    }
  }

  /** Powers of two grow with the exponent. */
  lemma {:induction false} Pow2Monotone(i: nat, j: nat)
    requires i <= j
    ensures Pow2(i) <= Pow2(j)
    decreases j - i
  {
    if i < j {
      Pow2Monotone(i, j - 1);
    }
  }

  /** The powers of two at the top of a 32-bit word. */
  lemma Pow2Word()
    ensures Pow2(30) == TwoTo31 / 2 && Pow2(31) == TwoTo31 && Pow2(32) == TwoTo32
  {
    assert Pow2(4) == 16;
    Pow2Add(4, 4);
    Pow2Add(8, 8);
    Pow2Add(16, 16);
  }

  /** C# `x << count` on `int`: only the low five bits of the count are
      used, and the bits shifted past bit 31 are lost. */
  function ShiftLeft32(x: int, count: int): (r: int)
    ensures IsInt32(r)
    ensures (r - x * Pow2(count % 32)) % TwoTo32 == 0
  {
    ToInt32(x * Pow2(count % 32))
  }

  predicate IsDigit(c: char) {
    '0' <= c <= '9'
  }

  function DigitChar(d: int): (c: char)
    requires 0 <= d < 10
    ensures IsDigit(c)
  {
    (d + '0' as int) as char
  }

  function DigitValue(c: char): (d: int)
    requires IsDigit(c)
    ensures 0 <= d < 10
  {
    c as int - '0' as int
  }

  /** The decimal digits of `n`, most significant first, with no leading zero. */
  function NatToString(n: nat): (s: string)
    ensures |s| >= 1
    ensures forall i :: 0 <= i < |s| ==> IsDigit(s[i])
    ensures |s| > 1 ==> s[0] != '0'
    decreases n
  {
    if n < 10 then [DigitChar(n)] else NatToString(n / 10) + [DigitChar(n % 10)]
  }

  /** The value of a string of decimal digits. */
  function DigitsValue(s: string): (n: nat)
    requires forall i :: 0 <= i < |s| ==> IsDigit(s[i])
    decreases |s|
  {
    if |s| == 0 then 0 else 10 * DigitsValue(s[..|s| - 1]) + DigitValue(s[|s| - 1])
  }

  /** Reading back the rendered digits gives the number: `NatToString`
      loses nothing. */
  lemma {:induction false} NatToStringRoundTrip(n: nat)
    ensures DigitsValue(NatToString(n)) == n
    decreases n
  {
    var s := NatToString(n);
    if n >= 10 {
      NatToStringRoundTrip(n / 10);
      assert s[..|s| - 1] == NatToString(n / 10);
    }
  }

  /** C# `int.ToString()` (invariant culture). */
  function IntToString(i: int): (s: string)
    ensures i < 0 <==> (|s| > 0 && s[0] == '-')
    ensures i >= 0 ==> (forall k :: 0 <= k < |s| ==> IsDigit(s[k])) && DigitsValue(s) == i
    ensures i < 0 ==> s[1..] == NatToString(-i)
  {
    if i < 0 then "-" + NatToString(-i)
    else NatToStringRoundTrip(i); NatToString(i)
  }
}

/** Octets as the C# `byte` type. */
module Bytes {
  newtype Byte = x: int | 0 <= x < 256
}

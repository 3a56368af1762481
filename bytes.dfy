/** Bytes and the few pieces of Go integer arithmetic the formatter relies on. */
module Bytes {

  /** A Go `byte`: an unsigned 8-bit value. */
  type byte = x: int | 0 <= x < 256

  // ASCII codes of the characters the formatter emits.
  const Zero: byte := 48       // '0'
  const Colon: byte := 58      // ':'
  const Dot: byte := 46        // '.'
  const Space: byte := 32      // ' '
  const LBracket: byte := 91   // '['
  const RBracket: byte := 93   // ']'
  const Newline: byte := 10    // '\n'

  /** Go's conversion `byte(x)` of an `int`: keeps the low 8 bits (two's complement). */
  function ToByte(x: int): (b: byte)
    ensures 0 <= x < 256 ==> b == x
    ensures (b - x) % 256 == 0
  {
    x % 256
  }

  /** Go's `a / d` on `int` for a positive divisor: the quotient truncated toward zero. */
  function GoQuot(a: int, d: int): (q: int)
    requires d > 0
    ensures a >= 0 ==> d * q <= a < d * q + d
    ensures a < 0 ==> d * q - d < a <= d * q
  {
    if a >= 0 then a / d else -((-a) / d)
  }

  /** Go's `a % d` on `int` for a positive divisor: the remainder has the sign of `a`. */
  function GoRem(a: int, d: int): (r: int)
    requires d > 0
    ensures a == d * GoQuot(a, d) + r
    ensures a >= 0 ==> r == a % d
    ensures a < 0 ==> r <= 0
    ensures -d < r < d
  {
    a - d * GoQuot(a, d)
  }

  /** An ASCII decimal digit. */
  predicate IsDigit(b: byte) {
    Zero <= b < Zero + 10
  }

  predicate AllDigits(ds: seq<byte>) {
    forall i :: 0 <= i < |ds| ==> IsDigit(ds[i])
  }

  function Pow10(n: nat): (p: nat)
    ensures p >= 1
  {
    if n == 0 then 1 else 10 * Pow10(n - 1)
  }

  /** The number a run of ASCII digits spells, most significant first. */
  function DigitsValue(ds: seq<byte>): (v: nat)
    requires AllDigits(ds)
    ensures v < Pow10(|ds|)
  {
    if |ds| == 0 then 0 else 10 * DigitsValue(ds[..|ds| - 1]) + (ds[|ds| - 1] - Zero)
  }

  /** Splitting off the last decimal digit undoes appending it. */
  lemma SplitDigit(q: int, r: int)
    requires 0 <= q && 0 <= r < 10
    ensures (10 * q + r) / 10 == q && (10 * q + r) % 10 == r
  {
  }

  /** Splitting three decimal digits off a number below 1000 recovers them. */
  lemma SplitDigits3(x: int, y: int, z: int)
    requires 0 <= x < 10 && 0 <= y < 10 && 0 <= z < 10
    ensures var v := 100 * x + 10 * y + z;
      v / 100 == x && (v / 10) % 10 == y && v % 10 == z
  {
    var v := 100 * x + 10 * y + z;
    SplitDigit(10 * x + y, z);
    SplitDigit(x, y);
    assert 100 * x <= v < 100 * (x + 1);
  }

  /** Two digits spell ten times the first plus the second. */
  lemma Value2(a: byte, b: byte)
    requires IsDigit(a) && IsDigit(b)
    ensures AllDigits([a, b]) && DigitsValue([a, b]) == 10 * (a - Zero) + (b - Zero)
  {
    assert [a, b][..1] == [a];
    assert [a][..0] == [];
  }

  /** Three digits spell a hundred times the first, ten times the second, plus the third. */
  lemma Value3(a: byte, b: byte, c: byte)
    requires IsDigit(a) && IsDigit(b) && IsDigit(c)
    ensures AllDigits([a, b, c]) && DigitsValue([a, b, c]) == 100 * (a - Zero) + 10 * (b - Zero) + (c - Zero)
  {
    assert [a, b, c][..2] == [a, b];
    Value2(a, b);
  }
}

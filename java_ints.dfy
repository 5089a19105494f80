/**
 * The two places where the plugin's Java integer arithmetic differs from
 * mathematical integers: long division truncates toward zero, and a cast or
 * a product of two ints keeps only the low 32 bits.
 */
module JavaInts {

  const TWO_31: int := 0x8000_0000
  const TWO_32: int := 0x1_0000_0000

  predicate InInt32(x: int) { -TWO_31 <= x < TWO_31 }

  /** Java's `a / b` for a positive divisor: the quotient rounded toward zero. */
  function DivTrunc(a: int, b: int): (q: int)
    requires b > 0
    ensures a >= 0 ==> q >= 0 && q * b <= a < q * b + b
    ensures a < 0 ==> q <= 0 && q * b - b < a <= q * b
  {
    if a >= 0 then a / b else -((-a) / b)
  }

  /** Java's `(int)` narrowing of a long, and the result of int arithmetic: the value congruent to x modulo 2^32 in the int range. */
  function Int32(x: int): (r: int)
    ensures InInt32(r)
    ensures (x - r) % TWO_32 == 0
  {
    var m := x % TWO_32;
    if m >= TWO_31 then m - TWO_32 else m
  }

  /** A value already in the int range is unchanged by the narrowing. */
  lemma Int32InRange(x: int)
    requires InInt32(x)
    ensures Int32(x) == x
  {
    if x < 0 {
      assert x % TWO_32 == x + TWO_32;
    }
  }
}

/**
  Go's 64-bit signed integers: the range of int64 (and of int on a 64-bit
  platform), two's-complement wrap-around and the quotient of Go's `/`,
  which truncates toward zero.
*/
module GoInt {

  const MIN: int := -0x8000_0000_0000_0000
  const MAX: int := 0x7fff_ffff_ffff_ffff
  const MODULUS: int := 0x1_0000_0000_0000_0000

  type Int64 = x: int | MIN <= x <= MAX

  predicate InRange(x: int) { MIN <= x <= MAX }

  /** The int64 that two's-complement arithmetic leaves for the mathematical value x. */
  function Wrap(x: int): (r: Int64)
    ensures (x - r) % MODULUS == 0
    ensures InRange(x) ==> r == x
  {
    var u := (x - MIN) % MODULUS;
    assert 0 <= u < MODULUS;
    assert InRange(x) ==> x - MIN < MODULUS;
    u + MIN
  }

  /** Wrapping after every addition is the same as wrapping once at the end. */
  lemma WrapAdd(a: int, b: int)
    ensures Wrap(Wrap(a) + b) == Wrap(a + b)
  {
    var q := (a - MIN) / MODULUS;
    assert a - MIN == q * MODULUS + (a - MIN) % MODULUS;
    assert Wrap(a) + b - MIN == (a + b - MIN) - q * MODULUS;
    ModShift(a + b - MIN, q);
  }

  lemma ModShift(x: int, q: int)
    ensures (x - q * MODULUS) % MODULUS == x % MODULUS
  {
    var k := x / MODULUS;
    assert x == k * MODULUS + x % MODULUS;
    assert x - q * MODULUS == (k - q) * MODULUS + x % MODULUS;
  }

  /**
    The quotient a / b rounded toward zero, on mathematical integers.
    It is the unique q whose remainder a - q * b is smaller than b in
    magnitude and has the sign of a.
  */
  function TruncDiv(a: int, b: int): (q: int)
    requires b != 0
    ensures var rem := a - q * b;
      (a >= 0 ==> 0 <= rem < Abs(b)) && (a < 0 ==> -Abs(b) < rem <= 0)
  {
    if a >= 0 then
      (if b > 0 then a / b else -(a / -b))
    else
      (if b > 0 then -((-a) / b) else (-a) / (-b))
  }

  function Abs(x: int): (r: int)
    ensures r >= 0 && (r == x || r == -x)
  {
    if x < 0 then -x else x
  }

  /**
    Go's int64 quotient: truncating division, except that MIN / -1 overflows
    and yields MIN.
  */
  function Div(a: Int64, b: Int64): (q: Int64)
    requires b != 0
    ensures a == MIN && b == -1 ==> q == MIN
    ensures !(a == MIN && b == -1) ==> q == TruncDiv(a, b)
  {
    if a == MIN && b == -1 then MIN
    else
      TruncDivInRange(a, b);
      TruncDiv(a, b)
  }

  /** Apart from MIN / -1, the truncated quotient of two int64 values is an int64. */
  lemma TruncDivInRange(a: int, b: int)
    requires InRange(a) && InRange(b) && b != 0 && !(a == MIN && b == -1)
    ensures InRange(TruncDiv(a, b))
    ensures Abs(TruncDiv(a, b)) <= Abs(a)
  {
    var q := TruncDiv(a, b);
    if a >= 0 && b > 0 {
      assert q == a / b;
      DivBound(a, b);
    } else if a >= 0 {
      assert q == -(a / -b);
      DivBound(a, -b);
    } else if b > 0 {
      assert q == -((-a) / b);
      DivBound(-a, b);
    } else if b == -1 {
      assert q == -a;
    } else {
      assert q == (-a) / (-b);
      DivBound(-a, -b);
      DivHalf(-a, -b);
    }
  }

  lemma MulNonneg(x: int, y: int)
    requires x >= 0 && y >= 0
    ensures x * y >= 0
  {}

  lemma DivBound(a: nat, b: int)
    requires b >= 1
    ensures 0 <= a / b <= a
  {
    var q := a / b;
    assert a == b * q + a % b;
    MulNonneg(b - 1, q);
  }

  lemma DivHalf(a: nat, b: int)
    requires b >= 2
    ensures 2 * (a / b) <= a
  {
    var q := a / b;
    assert a == b * q + a % b;
    MulNonneg(b - 2, q);
  }
}

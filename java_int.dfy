/**
 * The pieces of Java's primitive arithmetic the automation code relies on:
 * 32-bit `int` wrap-around, the truncating remainder `%`, and the `(int)`
 * cast of a `double`.
 */
module JavaInt {

  const MinInt: int := -0x8000_0000
  const MaxInt: int := 0x7fff_ffff
  const Modulus: int := 0x1_0000_0000

  /** A Java `int`. */
  type Int32 = x: int | -0x8000_0000 <= x <= 0x7fff_ffff

  predicate InRange(x: int) {
    MinInt <= x <= MaxInt
  }

  /** The `int` that Java's `+` and `-` produce for the mathematical value `x`. */
  function Wrap(x: int): (r: Int32)
    ensures (x - r) % Modulus == 0
    ensures InRange(x) ==> r == x
  {
    var m := (x - MinInt) % Modulus;
    assert x - MinInt == (x - MinInt) / Modulus * Modulus + m;
    m + MinInt
  }

  /**
   * Java's `a % b`: the remainder of the division truncated toward zero,
   * which carries the sign of the dividend (Dafny's `%` is Euclidean).
   */
  function Rem(a: int, b: int): (r: int)
    requires b > 0
    ensures a >= 0 ==> 0 <= r < b
    ensures a < 0 ==> -b < r <= 0
    ensures (a - r) % b == 0
  {
    if a >= 0 then
      DivisionLeavesMultiple(a, b);
      a % b
    else
      DivisionLeavesMultiple(-a, b);
      MultipleNegated(-a - (-a) % b, b);
      -((-a) % b)
  }

  lemma DivisionLeavesMultiple(a: int, b: int)
    requires b > 0
    ensures (a - a % b) % b == 0
  {
    var q := a / b;
    assert a - a % b == q * b;
    MultipleMod(q, b);
  }

  lemma MultipleNegated(m: int, b: int)
    requires b > 0 && m % b == 0
    ensures (-m) % b == 0
  {
    var q := m / b;
    assert m == q * b;
    assert -m == (-q) * b;
    MultipleMod(-q, b);
  }

  lemma MultipleMod(q: int, b: int)
    requires b > 0
    ensures (q * b) % b == 0
  {
    var r, k := (q * b) % b, (q * b) / b;
    assert q * b == k * b + r;
    var d := q - k;
    assert r == d * b;
    ProductSign(d, b);
  }

  lemma ProductSign(d: int, b: int)
    requires b > 0
    ensures d >= 1 ==> d * b >= b
    ensures d <= -1 ==> d * b <= -b
  {
  }

  /**
   * Java's `(int) x` for a finite `double` `x`: rounds toward zero and
   * saturates at the bounds of `int`.
   */
  function DoubleToInt(x: real): (n: Int32)
    ensures x >= 0.0 ==> 0 <= n && n as real <= x
    ensures x <= 0.0 ==> n <= 0 && x <= n as real
    ensures MinInt as real < x < MaxInt as real ==> n as real - 1.0 < x < n as real + 1.0
  {
    if x >= MaxInt as real then MaxInt
    else if x <= MinInt as real then MinInt
    else if x >= 0.0 then x.Floor
    else -((-x).Floor)
  }

  /**
   * Truncating a value that lies between two `int` bounds cannot leave them:
   * the bound below is an integer no larger than the value, so it is no
   * larger than the value rounded toward zero, and likewise above.
   */
  lemma TruncationStaysWithin(x: real, lo: Int32, hi: Int32)
    requires lo as real <= x <= hi as real
    ensures lo <= DoubleToInt(x) <= hi
  {
  }
}

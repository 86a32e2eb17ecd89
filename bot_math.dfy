/**
 * Numeric helpers: linear normalisation onto [0, 1], and the wrap of a
 * bearing in degrees onto [0, 360).
 */
module BotMath {
  import JavaInt

  /**
   * `normalise(value, min, max)`: the position of `value` along the range
   * from `min` to `max`, as a fraction of the range's width.
   */
  function Normalise(value: real, min: real, max: real): (r: real)
    requires max != min
    ensures r * (max - min) == value - min
  {
    (value - min) / (max - min)
  }

  /** The bottom of the range normalises to 0 and the top to 1. */
  lemma NormaliseEnds(min: real, max: real)
    requires max != min
    ensures Normalise(min, min, max) == 0.0
    ensures Normalise(max, min, max) == 1.0
  {
    ProductDeterminesFactor(Normalise(max, min, max), 1.0, max - min);
  }

  /** The midpoint of the range normalises to one half. */
  lemma NormaliseMidpoint(min: real, max: real)
    requires max != min
    ensures Normalise((min + max) / 2.0, min, max) == 0.5
  {
    ProductDeterminesFactor(Normalise((min + max) / 2.0, min, max), 0.5, max - min);
  }

  /** A value inside an increasing range normalises into [0, 1]. */
  lemma NormaliseWithinUnit(value: real, min: real, max: real)
    requires min < max && min <= value <= max
    ensures 0.0 <= Normalise(value, min, max) <= 1.0
  {
    var r, width := Normalise(value, min, max), max - min;
    assert r * width == value - min;
    assert (r - 1.0) * width == value - max;
    if r < 0.0 {
      ScaledBySign(r, width);
      assert false;
    }
    if r > 1.0 {
      ScaledBySign(r - 1.0, width);
      assert false;
    }
  }

  /** Over an increasing range, normalisation is strictly increasing in the value. */
  lemma NormaliseIncreasing(v: real, w: real, min: real, max: real)
    requires min < max && v < w
    ensures Normalise(v, min, max) < Normalise(w, min, max)
  {
    var a, b := Normalise(v, min, max), Normalise(w, min, max);
    assert (b - a) * (max - min) == w - v;
    ScaledBySign(b - a, max - min);
  }

  /** Scaling by a positive factor keeps the sign. */
  lemma ScaledBySign(a: real, b: real)
    requires b > 0.0
    ensures a < 0.0 ==> a * b < 0.0
    ensures a > 0.0 ==> a * b > 0.0
    ensures a == 0.0 ==> a * b == 0.0
  {
  }

  /** A non-zero factor can be cancelled. */
  lemma ProductDeterminesFactor(a: real, b: real, c: real)
    requires c != 0.0 && a * c == b * c
    ensures a == b
  {
    assert (a - b) * c == 0.0;
  }

  /**
   * The last step of `getAngleBetween`: a bearing `d` in whole degrees is
   * reduced with Java's `%`, after adding 360 when it is negative.
   */
  function WrapDegrees(d: int): int {
    if d >= 0 then JavaInt.Rem(d, 360)
    else JavaInt.Rem(d + 360, 360)
  }

  /** A non-negative bearing is reduced modulo 360. */
  lemma WrapNonNegative(d: int)
    requires d >= 0
    ensures WrapDegrees(d) == d % 360
  {
  }

  /** A bearing in [-360, 0) is shifted up by a full turn and then reduced. */
  lemma WrapNegative(d: int)
    requires -360 <= d < 0
    ensures WrapDegrees(d) == (d + 360) % 360
  {
  }

  /**
   * `getAngleBetween` from the truncated `atan2` angle in degrees, which
   * lies in [-180, 180]: the angle is turned by -90 degrees and wrapped.
   */
  function AngleBetween(atanDegrees: int): int {
    WrapDegrees(atanDegrees - 90)
  }

  /**
   * Every bearing that `getAngleBetween` can form, [-270, 90], wraps into
   * [0, 360) and denotes the same direction.
   */
  lemma AngleBetweenNormalised(atanDegrees: int)
    requires -180 <= atanDegrees <= 180
    ensures 0 <= AngleBetween(atanDegrees) < 360
    ensures (AngleBetween(atanDegrees) - (atanDegrees - 90)) % 360 == 0
  {
    var d := atanDegrees - 90;
    if d < 0 {
      assert AngleBetween(atanDegrees) == d + 360;
    } else {
      assert AngleBetween(atanDegrees) == d;
    }
  }

  /**
   * Below one full negative turn Java's `%` keeps the sign of the dividend:
   * the wrap leaves [0, 360) exactly when the bearing is not a whole number
   * of turns. `atan2` never produces such a bearing.
   */
  lemma WrapBelowFullTurn(d: int)
    requires d < -360
    ensures -360 < WrapDegrees(d) <= 0
    ensures WrapDegrees(d) < 0 <==> d % 360 != 0
  {
    var a := d + 360;
    var r := WrapDegrees(d);
    var k := (a - r) / 360;
    assert a - r == k * 360;
    if r == 0 {
      assert d == (k - 1) * 360;
      JavaInt.MultipleMod(k - 1, 360);
    }
    if d % 360 == 0 {
      var j := d / 360;
      assert d == j * 360;
      assert r == (j + 1 - k) * 360;
      JavaInt.ProductSign(j + 1 - k, 360);
    }
  }
}

/**
 * Bounded random values for human-like timing. The randomness itself is an
 * input: `getInt` receives the uniform draw behind `nextInt`, and the two
 * rejection samplers receive the successive values `getGaussian` would have
 * returned, as a finite sequence of reals.
 */
module Random {
  import opened Wrappers
  import opened JavaInt

  /** Why an argument was refused. */
  datatype Reason = BoundNotPositive | MinimumNotBelowMaximum | MeanOutsideBounds

  /** The exceptions the generators throw, each with the reason it was thrown. */
  datatype RandomException =
    | IllegalArgument(reason: Reason)   // from `nextInt` when its bound is not positive
    | InvalidParameter(reason: Reason)  // from `getLimitedGaussian(mean, min, max)`
  {
    /**
     * The exception's text: the two texts `getLimitedGaussian(mean, min, max)`
     * throws, and the text the JDK's `nextInt` gives a bound that is not positive.
     */
    function Message(): string {
      match reason
      case BoundNotPositive => "bound must be positive"
      case MinimumNotBelowMaximum => "The minimum value must be less than the maximum value."
      case MeanOutsideBounds => "The mean value must be between the minimum and maximum values."
    }
  }

  /**
   * `nextInt(bound)` on a uniform draw `u` in [0, 1): a value in [0, bound).
   */
  function NextInt(bound: int, u: real): (r: int)
    requires bound > 0 && 0.0 <= u < 1.0
    ensures 0 <= r < bound
  {
    var width := bound as real;
    var x := u * width;
    ScaledBelow(u, width);
    assert x.Floor as real <= x < width;
    x.Floor
  }

  /** Scaling a fraction in [0, 1) by a positive width stays in [0, width). */
  lemma ScaledBelow(u: real, width: real)
    requires 0.0 <= u < 1.0 && width > 0.0
    ensures 0.0 <= u * width < width
  {
    assert width - u * width == (1.0 - u) * width;
    PositiveProduct(1.0 - u, width);
    if u > 0.0 {
      PositiveProduct(u, width);
    }
  }

  /** A product of two positive reals is positive. */
  lemma PositiveProduct(a: real, b: real)
    requires a > 0.0 && b > 0.0
    ensures a * b > 0.0
  {
  }

  /**
   * `getInt(min, max)`: `max` when the bounds are equal, otherwise
   * `min + nextInt(max - min)` in Java's 32-bit arithmetic.
   */
  function GetInt(min: Int32, max: Int32, u: real): (r: Result<Int32, RandomException>)
    requires 0.0 <= u < 1.0
    ensures min == max ==> r == Success(max)
    ensures min < max && InRange(max - min) ==> r.Success? && min <= r.value < max
    ensures max < min && InRange(max - min) ==> r == Failure(IllegalArgument(BoundNotPositive))
    ensures max - min > MaxInt ==> r == Failure(IllegalArgument(BoundNotPositive))
  {
    if min == max then Success(max)
    else
      var bound := Wrap(max - min);
      if bound <= 0 then Failure(IllegalArgument(BoundNotPositive))
      else Success(Wrap(min + NextInt(bound, u)))
  }

  /** What a rejection sampler produces. */
  datatype Sample =
    | Sampled(value: Int32, used: nat)  // the truncated accepted draw, and how many draws were taken
    | Invalid(error: RandomException)           // the arguments were refused before any draw
    | Exhausted                         // every supplied draw was rejected

  /** The exit test of the rejection loops: the draw is neither above `hi` nor below `lo`. */
  predicate Within(g: real, lo: real, hi: real) {
    !(g > hi || g < lo)
  }

  /**
   * The do-while rejection loop: draw, and draw again while the draw lies
   * outside [lo, hi]; return the truncation of the first draw inside.
   */
  function Rejection(draws: seq<real>, lo: real, hi: real): (s: Sample)
    ensures !s.Invalid?
    ensures s.Sampled? ==> 1 <= s.used <= |draws|
    decreases |draws|
  {
    if draws == [] then Exhausted
    else if Within(draws[0], lo, hi) then Sampled(DoubleToInt(draws[0]), 1)
    else
      var rest := Rejection(draws[1..], lo, hi);
      if rest.Sampled? then Sampled(rest.value, rest.used + 1) else rest
  }

  /**
   * What the rejection loop returns: the truncation of the first draw in
   * range, every earlier draw having been rejected; and when no sample is
   * produced, every draw was rejected.
   */
  lemma {:induction false} RejectionAcceptsFirstWithin(draws: seq<real>, lo: real, hi: real)
    ensures var s := Rejection(draws, lo, hi);
      && (s.Sampled? ==>
            && Within(draws[s.used - 1], lo, hi)
            && s.value == DoubleToInt(draws[s.used - 1])
            && forall j :: 0 <= j < s.used - 1 ==> !Within(draws[j], lo, hi))
      && (s.Exhausted? ==> forall j :: 0 <= j < |draws| ==> !Within(draws[j], lo, hi))
    decreases |draws|
  {
    if draws != [] && !Within(draws[0], lo, hi) {
      RejectionAcceptsFirstWithin(draws[1..], lo, hi);
      assert forall j :: 1 <= j < |draws| ==> draws[j] == draws[1..][j - 1];
    }
  }

  /**
   * `getLimitedGaussian(mean, maxDeviation)`: accepts draws in
   * [mean - maxDeviation, mean + maxDeviation], both bounds computed in
   * Java's 32-bit arithmetic. The arguments are not checked.
   */
  function GaussianAround(mean: Int32, maxDeviation: Int32, draws: seq<real>): Sample {
    Rejection(draws, Wrap(mean - maxDeviation) as real, Wrap(mean + maxDeviation) as real)
  }

  /**
   * `getLimitedGaussian(mean, min, max)`: refuses `min >= max`, then a mean
   * outside [min, max], before drawing; then accepts draws in [min, max].
   */
  function GaussianBetween(mean: Int32, min: Int32, max: Int32, draws: seq<real>): (s: Sample)
    ensures min >= max ==> s == Invalid(InvalidParameter(MinimumNotBelowMaximum))
    ensures min < max && (mean < min || mean > max) ==> s == Invalid(InvalidParameter(MeanOutsideBounds))
    ensures min < max && min <= mean <= max ==> s == Rejection(draws, min as real, max as real)
  {
    if min >= max then Invalid(InvalidParameter(MinimumNotBelowMaximum))
    else if mean < min || mean > max then Invalid(InvalidParameter(MeanOutsideBounds))
    else Rejection(draws, min as real, max as real)
  }

  /** A sampled value of `getLimitedGaussian(mean, min, max)` lies in [min, max]. */
  lemma GaussianBetweenInRange(mean: Int32, min: Int32, max: Int32, draws: seq<real>)
    ensures GaussianBetween(mean, min, max, draws).Sampled? ==>
      min <= GaussianBetween(mean, min, max, draws).value <= max
  {
    var s := GaussianBetween(mean, min, max, draws);
    if s.Sampled? {
      RejectionAcceptsFirstWithin(draws, min as real, max as real);
      TruncationStaysWithin(draws[s.used - 1], min, max);
    }
  }

  /**
   * A sampled value of `getLimitedGaussian(mean, maxDeviation)` is at most
   * `maxDeviation` away from the mean, provided the bounds do not overflow.
   */
  lemma GaussianAroundInRange(mean: Int32, maxDeviation: Int32, draws: seq<real>)
    requires InRange(mean - maxDeviation) && InRange(mean + maxDeviation)
    ensures GaussianAround(mean, maxDeviation, draws).Sampled? ==>
      mean - maxDeviation <= GaussianAround(mean, maxDeviation, draws).value <= mean + maxDeviation
  {
    var s := GaussianAround(mean, maxDeviation, draws);
    if s.Sampled? {
      RejectionAcceptsFirstWithin(draws, Wrap(mean - maxDeviation) as real, Wrap(mean + maxDeviation) as real);
      TruncationStaysWithin(draws[s.used - 1], mean - maxDeviation, mean + maxDeviation);
    }
  }

  /** With a negative deviation the acceptance range is empty: no draw is ever accepted. */
  lemma NegativeDeviationNeverSamples(mean: Int32, maxDeviation: Int32, draws: seq<real>)
    requires maxDeviation < 0
    requires InRange(mean - maxDeviation) && InRange(mean + maxDeviation)
    ensures GaussianAround(mean, maxDeviation, draws) == Exhausted
  {
    RejectionAcceptsFirstWithin(draws, Wrap(mean - maxDeviation) as real, Wrap(mean + maxDeviation) as real);
  }

  /** The do-while loop shared by both `getLimitedGaussian` overloads. */
  method DrawUntilWithin(draws: seq<real>, lo: real, hi: real) returns (s: Sample)
    ensures s == Rejection(draws, lo, hi)
  {
    var used := 0;
    while used < |draws|
      invariant 0 <= used <= |draws|
      invariant forall j :: 0 <= j < used ==> !Within(draws[j], lo, hi)
    {
      var gaussianValue := draws[used];
      used := used + 1;
      if Within(gaussianValue, lo, hi) {
        s := Sampled(DoubleToInt(gaussianValue), used);
        SameFirstAccepted(draws, lo, hi, s);
        return;
      }
    }
    AllRejectedExhausts(draws, lo, hi);
    s := Exhausted;
  }

  /** The first accepted draw is unique, so the loop and `Rejection` agree. */
  lemma {:induction false} SameFirstAccepted(draws: seq<real>, lo: real, hi: real, s: Sample)
    requires s.Sampled? && 1 <= s.used <= |draws|
    requires Within(draws[s.used - 1], lo, hi) && s.value == DoubleToInt(draws[s.used - 1])
    requires forall j :: 0 <= j < s.used - 1 ==> !Within(draws[j], lo, hi)
    ensures s == Rejection(draws, lo, hi)
    decreases |draws|
  {
    if s.used > 1 {
      var rest := draws[1..];
      assert !Within(draws[0], lo, hi);
      assert rest[s.used - 2] == draws[s.used - 1];
      assert forall j :: 0 <= j < s.used - 2 ==> rest[j] == draws[j + 1];
      SameFirstAccepted(rest, lo, hi, Sampled(s.value, s.used - 1));
    }
  }

  /** When every draw is rejected, `Rejection` produces no sample. */
  lemma {:induction false} AllRejectedExhausts(draws: seq<real>, lo: real, hi: real)
    requires forall j :: 0 <= j < |draws| ==> !Within(draws[j], lo, hi)
    ensures Rejection(draws, lo, hi) == Exhausted
    decreases |draws|
  {
    if draws != [] {
      assert forall j :: 0 <= j < |draws| - 1 ==> draws[1..][j] == draws[j + 1];
      AllRejectedExhausts(draws[1..], lo, hi);
    }
  }

  /** `getLimitedGaussian(mean, maxDeviation)`. */
  method LimitedGaussian(mean: Int32, maxDeviation: Int32, draws: seq<real>) returns (s: Sample)
    ensures s == GaussianAround(mean, maxDeviation, draws)
  {
    s := DrawUntilWithin(draws, Wrap(mean - maxDeviation) as real, Wrap(mean + maxDeviation) as real);
  }

  /** `getLimitedGaussian(mean, min, max)`. */
  method LimitedGaussianBetween(mean: Int32, min: Int32, max: Int32, draws: seq<real>) returns (s: Sample)
    ensures s == GaussianBetween(mean, min, max, draws)
  {
    if min >= max {
      return Invalid(InvalidParameter(MinimumNotBelowMaximum));
    }
    if mean < min || mean > max {
      return Invalid(InvalidParameter(MeanOutsideBounds));
    }
    s := DrawUntilWithin(draws, min as real, max as real);
  }
}

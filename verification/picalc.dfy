/**
 * The common base of the sequential Machin calculators: a calculator is
 * configured with a non-negative number of decimal digits; `compute()` floors
 * the algorithm's working-precision result to exactly that many fractional
 * digits; `sqrt` is the Babylonian square root at a given scale, rounding
 * HALF_UP, that stops when two successive iterates are equal.
 */
module PiCalc {
  import opened Decimals

  datatype Calculator = Calculator(decimalDigits: nat)

  /** The constructor: a negative digit count is an IllegalArgumentException
      and yields no calculator. */
  function New(decimalDigits: int): (r: Result<Calculator>)
    ensures r.Success? <==> decimalDigits >= 0
    ensures r.Success? ==> r.value.decimalDigits == decimalDigits
    ensures r.Failure? ==> r.error.IllegalArgument?
  {
    if decimalDigits < 0 then
      Failure(IllegalArgument("Number of decimal digits must not be negative."))
    else
      Success(Calculator(decimalDigits))
  }

  /** compute(): the value of computeImpl() (given here as `impl`) floored to
      exactly decimalDigits fractional digits, so that
      result <= impl < result + 10^-decimalDigits. */
  function Compute(calculator: Calculator, impl: Dec): (r: Dec)
    ensures r.scale == calculator.decimalDigits
    ensures r.unscaled * Pow10(impl.scale) <= impl.unscaled * Pow10(calculator.decimalDigits)
                                            < (r.unscaled + 1) * Pow10(impl.scale)
  {
    SetScaleFloor(impl, calculator.decimalDigits)
  }

  /** The unscaled result is floor(impl * 10^d): the greatest integer not
      above impl * 10^d. */
  lemma ComputeIsFloor(calculator: Calculator, impl: Dec)
    ensures IsFloor(Compute(calculator, impl).unscaled, Value(impl) * Pow10(calculator.decimalDigits) as real)
  {
    DecFloorBounds(impl, calculator.decimalDigits, Compute(calculator, impl).unscaled);
  }

  lemma DecFloorBounds(impl: Dec, digits: nat, r: int)
    requires r * Pow10(impl.scale) <= impl.unscaled * Pow10(digits) < (r + 1) * Pow10(impl.scale)
    ensures IsFloor(r, Value(impl) * Pow10(digits) as real)
  {
    FloorBounds(impl.unscaled, Pow10(impl.scale), Pow10(digits), r, Value(impl));
  }

  lemma FloorBounds(u: int, s: int, d: int, r: int, v: real)
    requires s > 0 && r * s <= u * d < (r + 1) * s
    requires v == u as real / s as real
    ensures IsFloor(r, v * d as real)
  {
    var n := u * d;
    ScaledValue(u, s, d, n);
    RealOfProduct(r, s);
    RealOfProduct(r + 1, s);
    var x := n as real / s as real;
    assert x * s as real == n as real;
    assert r as real <= x by {
      assert (r as real) * (s as real) <= x * (s as real);
    }
    assert x < (r + 1) as real by {
      assert x * (s as real) < (r + 1) as real * (s as real);
    }
  }

  lemma ScaledValue(u: int, s: int, d: int, n: int)
    requires s > 0 && n == u * d
    ensures (u as real / s as real) * d as real == n as real / s as real
  {
    RealOfProduct(u, d);
  }

  /** A value that already has decimalDigits fractional digits is returned
      unchanged. */
  lemma ComputeKeepsExact(calculator: Calculator, impl: Dec)
    requires impl.scale == calculator.decimalDigits
    ensures Compute(calculator, impl) == impl
  {
    assert Pow10(0) == 1;
  }

  /** Truncating to d + 1 digits and then to d digits is the same as truncating
      to d digits directly: the two results agree in their first d digits. */
  lemma {:induction false} ComputeTwice(d: nat, impl: Dec)
    requires impl.scale >= d + 1
    ensures Compute(Calculator(d), Compute(Calculator(d + 1), impl)) == Compute(Calculator(d), impl)
  {
    var k := impl.scale - (d + 1);
    Pow10Add(k, 1);
    assert Pow10(1) == 10;
    assert impl.scale - d == k + 1;
    FloorDivTwice(impl.unscaled, Pow10(k), 10);
  }

  /** One Babylonian step at the given scale: (a / x + x) / 2, each division
      rounding HALF_UP to `scale` digits. */
  function Step(a: Dec, x: Dec, scale: nat): (r: Dec)
    requires x.unscaled != 0
    ensures r.scale == scale
  {
    Divide(Add(Divide(a, x, scale, HalfUp), x), Two, scale, HalfUp)
  }

  /** sqrt(a, scale). The floating-point first estimate Math.sqrt(a) is the
      parameter `seed`; the source loops until two iterates are equal, and the
      model gives up with NotConverged after `fuel` steps. On a normal exit the
      result has the requested scale and is a fixed point of the step. */
  method Sqrt(a: Dec, scale: nat, seed: Dec, fuel: nat) returns (r: Result<Dec>)
    ensures seed == Zero ==> r == Success(Zero)
    ensures seed != Zero && seed.unscaled == 0 && fuel > 0 ==> r == Failure(DivisionByZero)
    ensures r.Success? && seed != Zero ==>
              r.value.unscaled != 0 && r.value.scale == scale && Step(a, r.value, scale) == r.value
    ensures r.Failure? ==> r.error == DivisionByZero || r.error == NotConverged
  {
    var x0 := Zero;
    var x1 := seed;
    var left := fuel;
    while x0 != x1
      invariant (x0 == Zero && x1 == seed && left == fuel)
                || (seed.unscaled != 0 && x0.unscaled != 0 && x1.scale == scale && x1 == Step(a, x0, scale))
      decreases left
    {
      if left == 0 {
        return Failure(NotConverged);
      }
      x0 := x1;
      if x0.unscaled == 0 {
        return Failure(DivisionByZero);
      }
      x1 := Step(a, x0, scale);
      left := left - 1;
    }
    return Success(x1);
  }

  /** What a fixed point means: the half-up quotient a / x differs from x by at
      most one unit in the last place, so x * x is within about one unit of a. */
  lemma FixedPointNearQuotient(a: Dec, x: Dec, scale: nat)
    requires x.unscaled != 0 && x.scale == scale && Step(a, x, scale) == x
    ensures var y := Divide(a, x, scale, HalfUp).unscaled;
      && (x.unscaled + y >= 0 ==> y == x.unscaled || y == x.unscaled - 1)
      && (x.unscaled + y < 0 ==> y == x.unscaled || y == x.unscaled + 1)
  {
    var q := Divide(a, x, scale, HalfUp);
    var y, X := q.unscaled, x.unscaled;
    assert Pow10(0) == 1;
    assert Add(q, x) == Dec(y + X, scale);
    DivideAtScale(y + X, 2, scale, HalfUp);
    assert X == HalfUpDiv(y + X, 2);
    HalfUpDivBounds(y + X, 2);
  }
}

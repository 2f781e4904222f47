/**
 * Machin's formula pi = 16 arctan(1/5) - 4 arctan(1/239), each arctangent
 * summed term by term at the working scale P = decimalDigits + 10. Every
 * quantity in the loop has scale P, so the specification works with unscaled
 * integers: the i-th power is pow_i * 10^-P and the sum is result * 10^-P.
 */
module Machin {
  import opened Decimals
  import PiCalc

  /** The working scale: ten guard digits. */
  function Precision(calculator: PiCalc.Calculator): nat
  {
    calculator.decimalDigits + 10
  }

  /** The unscaled power of the i-th term: pow_1 = floor(10^P / x), and each
      next one is the previous divided by x^2 (floored) with its sign flipped. */
  function Power(x: nat, i: nat, precision: nat): int
    requires x >= 1 && i >= 1
  {
    if i == 1 then FloorDiv(Pow10(precision), x)
    else -FloorDiv(Power(x, i - 1, precision), x * x)
  }

  /** The unscaled sum of the first n terms:
      pow_1 + floor(pow_2 / 3) + ... + floor(pow_n / (2n - 1)); one term when n <= 1. */
  function Series(x: nat, n: int, precision: nat): int
    requires x >= 1
    decreases n
  {
    if n <= 1 then Power(x, 1, precision)
    else Series(x, n - 1, precision) + FloorDiv(Power(x, n, precision), 2 * n - 1)
  }

  /** arctanRecip(x, n): the loop of the source on decimals, proved to compute
      Series; the divisor c of the i-th term is 2i - 1. */
  method ArctanRecip(calculator: PiCalc.Calculator, x: nat, n: int) returns (r: Dec)
    requires x >= 1
    ensures r == Dec(Series(x, n, Precision(calculator)), Precision(calculator))
  {
    var precision := calculator.decimalDigits + 10;
    var bdX := Dec(x, 0);
    assert Pow10(0) == 1;
    var pow := Divide(One, bdX, precision, Floor);
    if n <= 1 {
      return pow;
    }
    var sqr := Multiply(bdX, bdX);
    MulPositive(x, x);
    var result := pow;
    var c := 1;
    for i := 2 to n + 1
      invariant c == 2 * i - 3
      invariant pow == Dec(Power(x, i - 1, precision), precision)
      invariant result == Dec(Series(x, i - 1, precision), precision)
    {
      c := c + 2;
      DivideAtScale(pow.unscaled, x * x, precision, Floor);
      pow := Negate(Divide(pow, sqr, precision, Floor));
      DivideAtScale(pow.unscaled, c, precision, Floor);
      result := Add(result, Divide(pow, Dec(c, 0), precision, Floor));
    }
    return result;
  }

  /** The powers alternate in sign: non-negative at odd i, non-positive at even i. */
  lemma {:induction false} PowerSign(x: nat, i: nat, precision: nat)
    requires x >= 1 && i >= 1
    ensures i % 2 == 1 ==> Power(x, i, precision) >= 0
    ensures i % 2 == 0 ==> Power(x, i, precision) <= 0
  {
    if i > 1 {
      PowerSign(x, i - 1, precision);
      var p, k := Power(x, i - 1, precision), x * x;
      MulPositive(x, x);
      FloorDivShrinks(p, k);
      assert Power(x, i, precision) == -FloorDiv(p, k);
    } else {
      FloorDivShrinks(Pow10(precision), x);
    }
  }

  /** The magnitude of the powers never increases. */
  lemma PowerShrinks(x: nat, i: nat, precision: nat)
    requires x >= 1 && i >= 2
    ensures Abs(Power(x, i, precision)) <= Abs(Power(x, i - 1, precision))
  {
    MulPositive(x, x);
    FloorDivShrinks(Power(x, i - 1, precision), x * x);
  }

  /** The exact result of computeImpl() as an unscaled integer at scale P. */
  function ImplValue(calculator: PiCalc.Calculator, n5: int, n239: int): Dec
  {
    var p := Precision(calculator);
    Dec(4 * (4 * Series(5, n5, p) - Series(239, n239, p)), p)
  }

  /** numberOfTerms(x, d) = ceil(d / (2 log10 x)) + 1; the floating-point
      ceiling is the parameter. */
  function NumberOfTerms(ceiling: nat): (n: nat)
    ensures n >= 1
  {
    ceiling + 1
  }

  /** computeImpl(): 4 * (4 * arctan(1/5) - arctan(1/239)), with no rounding
      beyond that inside the two series. */
  method ComputeImpl(calculator: PiCalc.Calculator, ceiling5: nat, ceiling239: nat) returns (r: Dec)
    ensures r == ImplValue(calculator, NumberOfTerms(ceiling5), NumberOfTerms(ceiling239))
    ensures r.scale == calculator.decimalDigits + 10
  {
    var n5 := NumberOfTerms(ceiling5);
    var n239 := NumberOfTerms(ceiling239);
    var bd4 := Dec(4, 0);
    var term1 := ArctanRecip(calculator, 5, n5);
    var term2 := ArctanRecip(calculator, 239, n239);
    assert Pow10(0) == 1;
    r := Multiply(bd4, Subtract(Multiply(bd4, term1), term2));
  }

  /** compute(): computeImpl() floored to decimalDigits digits. */
  method Compute(calculator: PiCalc.Calculator, ceiling5: nat, ceiling239: nat) returns (r: Dec)
    ensures r == PiCalc.Compute(calculator, ImplValue(calculator, NumberOfTerms(ceiling5), NumberOfTerms(ceiling239)))
    ensures r.scale == calculator.decimalDigits
  {
    var impl := ComputeImpl(calculator, ceiling5, ceiling239);
    r := PiCalc.Compute(calculator, impl);
  }

  /** With zero digits both series have one term (the ceiling of 0 is 0) and
      the result is exactly 3. */
  lemma ZeroDigitsGivesThree()
    ensures ImplValue(PiCalc.Calculator(0), NumberOfTerms(0), NumberOfTerms(0)) == Dec(31832635984, 10)
    ensures PiCalc.Compute(PiCalc.Calculator(0), ImplValue(PiCalc.Calculator(0), NumberOfTerms(0), NumberOfTerms(0))) == Dec(3, 0)
  {
    assert Pow10(10) == 10000000000;
    assert Series(5, 1, 10) == 2000000000;
    assert Series(239, 1, 10) == 41841004;
  }
}

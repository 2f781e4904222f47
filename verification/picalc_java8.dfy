/**
 * The base of the Chudnovsky and Brent-Salamin calculators. It is the
 * sequential base with one more setting, `verbose`, that makes compute()
 * announce its start and finish on standard output; the value is unaffected.
 */
module PiCalcJava8 {
  import opened Decimals
  import PiCalc

  datatype Calculator = Calculator(decimalDigits: nat, verbose: bool)

  /** The two-argument constructor: a negative digit count is an
      IllegalArgumentException and yields no calculator. */
  function New(decimalDigits: int, verbose: bool): (r: Result<Calculator>)
    ensures r.Success? <==> decimalDigits >= 0
    ensures r.Success? ==> r.value.decimalDigits == decimalDigits && r.value.verbose == verbose
    ensures r.Failure? ==> r.error.IllegalArgument?
  {
    if decimalDigits < 0 then
      Failure(IllegalArgument("Number of decimal digits must not be negative."))
    else
      Success(Calculator(decimalDigits, verbose))
  }

  /** The one-argument constructor: the same validation, and never verbose. */
  function NewQuiet(decimalDigits: int): (r: Result<Calculator>)
    ensures r.Success? <==> decimalDigits >= 0
    ensures r.Success? ==> r.value.decimalDigits == decimalDigits && !r.value.verbose
    ensures r.Failure? ==> r.error.IllegalArgument?
  {
    New(decimalDigits, false)
  }

  /** The value compute() returns, with the lines it prints. */
  datatype Outcome = Outcome(value: Dec, printed: seq<string>)

  /** compute(): computeImpl() (given as `impl`) floored to decimalDigits
      fractional digits; when verbose, a start and a finish line naming the
      calculator's class are printed around the computation. */
  function Compute(calculator: Calculator, impl: Dec, className: string): (r: Outcome)
    ensures r.value.scale == calculator.decimalDigits
    ensures r.value.unscaled * Pow10(impl.scale) <= impl.unscaled * Pow10(calculator.decimalDigits)
                                                  < (r.value.unscaled + 1) * Pow10(impl.scale)
    ensures calculator.verbose <==> |r.printed| == 2
    ensures !calculator.verbose <==> r.printed == []
  {
    var printed :=
      if calculator.verbose then
        [className + " has started computing...", className + " has finished computing"]
      else [];
    Outcome(SetScaleFloor(impl, calculator.decimalDigits), printed)
  }

  /** The verbose flag changes what is printed and never the value. */
  lemma {:induction false} VerboseOnlyPrints(d: nat, impl: Dec, className: string)
    ensures Compute(Calculator(d, true), impl, className).value == Compute(Calculator(d, false), impl, className).value
    ensures Compute(Calculator(d, false), impl, className).value == PiCalc.Compute(PiCalc.Calculator(d), impl)
  {
  }

  /** sqrt(a, scale): the same Babylonian loop as the sequential base. */
  method Sqrt(a: Dec, scale: nat, seed: Dec, fuel: nat) returns (r: Result<Dec>)
    ensures seed == Zero ==> r == Success(Zero)
    ensures seed != Zero && seed.unscaled == 0 && fuel > 0 ==> r == Failure(DivisionByZero)
    ensures r.Success? && seed != Zero ==>
              r.value.unscaled != 0 && r.value.scale == scale && PiCalc.Step(a, r.value, scale) == r.value
    ensures r.Failure? ==> r.error == DivisionByZero || r.error == NotConverged
  {
    r := PiCalc.Sqrt(a, scale, seed, fuel);
  }
}

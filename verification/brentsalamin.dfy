/**
 * The Brent-Salamin (Gauss-Legendre) calculator: an arithmetic-geometric mean
 * iteration on four decimals a, b, t, p at the working scale P = decimalDigits
 * + 3, repeated numberOfIterations(decimalDigits) times, after which
 * pi ~ (a + b)^2 / (4t). The square root is the calculator's own sqrt at scale
 * P; the model takes it as the function `root`, root(x) standing for
 * sqrt(x, P).
 */
module BrentSalamin {
  import opened Decimals
  import PiCalcJava8

  /** The working scale: three guard digits. */
  function Precision(calculator: PiCalcJava8.Calculator): nat
  {
    calculator.decimalDigits + 3
  }

  // ---------------------------------------------------------------------
  // numberOfIterations

  /** The number of digits n iterations are taken to be good for:
      2 + 4 + ... + 2^n = 2^(n+1) - 2 (the number of correct digits roughly
      doubles with each iteration). */
  function Capacity(n: nat): int
  {
    Pow(2, n + 1) - 2
  }

  /** n is the least number of iterations, at least 1, whose capacity reaches
      d. */
  predicate IsLeastIterations(d: int, n: int)
  {
    && n >= 1
    && d <= Capacity(n)
    && forall k: nat :: 1 <= k < n ==> d > Capacity(k)
  }

  /** ceil(log2(x)) for x >= 1, and 0 for x = 0. */
  function CeilLog2(x: nat): nat
  {
    if x <= 1 then 0 else 1 + CeilLog2((x + 1) / 2)
  }

  /** The closed form of numberOfIterations(d): the least n >= 1 with
      (d + 2) / 2 <= 2^n. */
  function Iterations(d: int): nat
  {
    if d <= 2 then 1 else CeilLog2((d + 3) / 2)
  }

  /** numberOfIterations(d): doubles pow and accumulates it into m until m
      reaches d. */
  method NumberOfIterations(d: int) returns (n: int)
    ensures IsLeastIterations(d, n)
    ensures n == Iterations(d)
  {
    n := 1;
    var m := 2;
    var pow := 2;
    while d > m
      invariant n >= 1
      invariant pow == Pow(2, n) && m == Capacity(n)
      invariant forall k: nat :: 1 <= k < n ==> d > Capacity(k)
      decreases d - m
    {
      pow := pow * 2;
      m := m + pow;
      n := n + 1;
    }
    IterationsIsLeast(d);
    LeastIterationsUnique(d, n, Iterations(d));
  }

  lemma {:induction false} PowTwoMonotone(i: nat, j: nat)
    requires i <= j
    ensures 1 <= Pow(2, i) <= Pow(2, j)
    decreases j
  {
    PowPositive(2, i);
    if i < j {
      PowTwoMonotone(i, j - 1);
    }
  }

  lemma {:induction false} CeilLog2Bounds(x: nat)
    requires x >= 1
    ensures x <= Pow(2, CeilLog2(x))
    ensures CeilLog2(x) >= 1 ==> Pow(2, CeilLog2(x) - 1) < x
  {
    if x > 1 {
      var y := (x + 1) / 2;
      CeilLog2Bounds(y);
      var c := CeilLog2(y);
      assert CeilLog2(x) == c + 1;
      if c >= 1 {
        assert Pow(2, c) == 2 * Pow(2, c - 1);
      }
    }
  }

  /** The closed form is the least sufficient number of iterations. */
  lemma IterationsIsLeast(d: int)
    ensures IsLeastIterations(d, Iterations(d))
  {
    var n := Iterations(d);
    if d > 2 {
      var x := (d + 3) / 2;
      CeilLog2Bounds(x);
      assert n >= 2;
      assert Pow(2, n + 1) == 2 * Pow(2, n);
      forall k: nat | 1 <= k < n
        ensures d > Capacity(k)
      {
        PowTwoMonotone(k + 1, n);
      }
    }
  }

  /** There is only one least number of iterations. */
  lemma LeastIterationsUnique(d: int, n1: int, n2: int)
    requires IsLeastIterations(d, n1) && IsLeastIterations(d, n2)
    ensures n1 == n2
  {
  }

  /** More digits never need fewer iterations. */
  lemma IterationsMonotone(d1: int, d2: int)
    requires d1 <= d2
    ensures Iterations(d1) <= Iterations(d2)
  {
    var n1, n2 := Iterations(d1), Iterations(d2);
    IterationsIsLeast(d1);
    IterationsIsLeast(d2);
  }

  // ---------------------------------------------------------------------
  // The AGM iteration

  datatype Agm = Agm(a: Dec, b: Dec, t: Dec, p: Dec)

  /** The state before the loop: a = 1, b = 1 / sqrt(2) floored to scale P,
      t = 0.25 (BigDecimal.valueOf(0.25), unscaled 25 at scale 2) and p = 1;
      a zero root would make the division throw. */
  function Initial(precision: nat, root: Dec -> Dec): Result<Agm>
  {
    var r2 := root(Dec(2, 0));
    if r2.unscaled == 0 then Failure(DivisionByZero)
    else Success(Agm(One, Reciprocal(r2, precision), Dec(25, 2), One))
  }

  /** 1 / r floored to scale P. */
  function Reciprocal(r: Dec, precision: nat): Dec
    requires r.unscaled != 0
  {
    Divide(One, r, precision, Floor)
  }

  /** a_i: (a + b) / 2 floored to scale P. */
  function Mean(a: Dec, b: Dec, precision: nat): Dec
  {
    Divide(Add(a, b), Two, precision, Floor)
  }

  /** t_i: t - p * (a - a_i)^2, with exact decimal arithmetic. */
  function Correction(t: Dec, p: Dec, a: Dec, ai: Dec): Dec
  {
    Subtract(t, Multiply(p, Square(Subtract(a, ai))))
  }

  /** One turn of the loop: a_i is the floored mean, b_i = sqrt(a * b),
      t_i the exact correction of t, and p doubles. */
  function Step(s: Agm, root: Dec -> Dec, precision: nat): Agm
  {
    var ai := Mean(s.a, s.b, precision);
    Agm(ai, root(Multiply(s.a, s.b)), Correction(s.t, s.p, s.a, ai), Add(s.p, s.p))
  }

  /** The state after k turns of the loop. */
  function Iterate(s: Agm, root: Dec -> Dec, precision: nat, k: nat): Agm
  {
    if k == 0 then s else Step(Iterate(s, root, precision, k - 1), root, precision)
  }

  /** The value returned after the loop: (a + b)^2 / (4t) floored to scale P. */
  function Final(s: Agm, precision: nat): Result<Dec>
  {
    Quotient(Square(Add(s.a, s.b)), Multiply(Dec(4, 0), s.t), precision)
  }

  /** x / d floored to scale P; a zero divisor makes the division throw. */
  function Quotient(x: Dec, d: Dec, precision: nat): Result<Dec>
  {
    if d.unscaled == 0 then Failure(DivisionByZero)
    else Success(Divide(x, d, precision, Floor))
  }

  /** computeImpl() with n turns of the loop. */
  function ImplValue(calculator: PiCalcJava8.Calculator, root: Dec -> Dec, n: nat): Result<Dec>
  {
    var precision := Precision(calculator);
    match Initial(precision, root)
    case Failure(e) => Failure(e)
    case Success(s) => Final(Iterate(s, root, precision, n), precision)
  }

  /** computeImpl(): the loop of the source, proved to compute ImplValue with
      the least sufficient number of iterations. */
  method ComputeImpl(calculator: PiCalcJava8.Calculator, root: Dec -> Dec) returns (r: Result<Dec>)
    ensures r == ImplValue(calculator, root, Iterations(calculator.decimalDigits))
  {
    var precision := Precision(calculator);
    var n := NumberOfIterations(calculator.decimalDigits);
    var a := One;
    var root2 := root(Dec(2, 0));
    if root2.unscaled == 0 {
      assert Initial(precision, root) == Failure(DivisionByZero);
      return Failure(DivisionByZero);
    }
    var b := Divide(One, root2, precision, Floor);
    var t := Dec(25, 2);
    var p := One;
    ghost var s0 := Agm(a, b, t, p);
    assert Initial(precision, root) == Success(s0);
    for i := 1 to n + 1
      invariant Agm(a, b, t, p) == Iterate(s0, root, precision, i - 1)
    {
      ghost var before := Agm(a, b, t, p);
      var ai := Divide(Add(a, b), Two, precision, Floor);
      var bi := root(Multiply(a, b));
      var ti := Subtract(t, Multiply(p, Square(Subtract(a, ai))));
      a := ai;
      b := bi;
      t := ti;
      p := Add(p, p);
      assert Agm(a, b, t, p) == Step(before, root, precision);
    }
    assert Agm(a, b, t, p) == Iterate(s0, root, precision, n);
    assert ImplValue(calculator, root, n) == Final(Agm(a, b, t, p), precision);
    var four := Multiply(Dec(4, 0), t);
    if four.unscaled == 0 {
      return Failure(DivisionByZero);
    }
    r := Success(Divide(Square(Add(a, b)), four, precision, Floor));
  }

  /** compute(): computeImpl() floored to decimalDigits digits, announced
      under the class name when verbose. */
  method Compute(calculator: PiCalcJava8.Calculator, root: Dec -> Dec) returns (r: Result<PiCalcJava8.Outcome>)
    ensures var impl := ImplValue(calculator, root, Iterations(calculator.decimalDigits));
      && (r.Success? <==> impl.Success?)
      && (r.Failure? ==> r.error == DivisionByZero)
      && (r.Success? ==> r.value == PiCalcJava8.Compute(calculator, impl.value, "BrentSalamin"))
  {
    var impl := ComputeImpl(calculator, root);
    match impl
    case Failure(e) =>
      ImplFailure(calculator, root, Iterations(calculator.decimalDigits));
      r := Failure(e);
    case Success(v) =>
      r := Success(PiCalcJava8.Compute(calculator, v, "BrentSalamin"));
  }

  // ---------------------------------------------------------------------
  // What the iteration computes

  /** The only failure is the ArithmeticException of a division by zero:
      either sqrt(2) or t is zero. */
  lemma ImplFailure(calculator: PiCalcJava8.Calculator, root: Dec -> Dec, n: nat)
    ensures ImplValue(calculator, root, n).Failure? <==>
      root(Dec(2, 0)).unscaled == 0
      || (Initial(Precision(calculator), root).Success?
          && Iterate(Initial(Precision(calculator), root).value, root, Precision(calculator), n).t.unscaled == 0)
    ensures ImplValue(calculator, root, n).Failure? ==> ImplValue(calculator, root, n).error == DivisionByZero
  {
  }

  /** The start state: a = 1, t = 1/4 and p = 1 exactly, and b is the
      reciprocal of sqrt(2) at the working scale. */
  lemma InitialState(precision: nat, root: Dec -> Dec)
    requires root(Dec(2, 0)).unscaled != 0
    ensures Initial(precision, root).Success?
    ensures var s := Initial(precision, root).value;
      && Value(s.a) == 1.0 && Value(s.t) == 0.25 && s.p == One
      && s.b == Reciprocal(root(Dec(2, 0)), precision)
  {
    assert Value(Dec(25, 2)) == 0.25 by {
      assert Pow10(2) == 100;
    }
    assert Value(One) == 1.0;
  }

  /** The reciprocal is 1 / r floored to P digits (the numerator ONE has
      value 1). */
  lemma ReciprocalIsFloor(r: Dec, precision: nat)
    requires r.unscaled != 0
    ensures Reciprocal(r, precision).scale == precision
    ensures Value(One) == 1.0
    ensures IsFloor(Reciprocal(r, precision).unscaled, Value(One) / Value(r) * Pow10(precision) as real)
  {
    DivideFloorIsFloor(One, r, precision);
    assert Value(One) == 1.0;
  }

  /** a_i is the exact sum a + b divided by 2 and floored to P digits. */
  lemma MeanIsFloor(a: Dec, b: Dec, precision: nat)
    ensures Mean(a, b, precision).scale == precision
    ensures Value(Add(a, b)) == Value(a) + Value(b) && Value(Two) == 2.0
    ensures IsFloor(Mean(a, b, precision).unscaled, Value(Add(a, b)) / Value(Two) * Pow10(precision) as real)
  {
    DivideFloorIsFloor(Add(a, b), Two, precision);
    ValueAdd(a, b);
    assert Value(Two) == 2.0;
  }

  /** b_i is the root of the exact product a * b. */
  lemma StepRoot(s: Agm, root: Dec -> Dec, precision: nat)
    ensures Step(s, root, precision).b == root(Multiply(s.a, s.b))
    ensures Value(Multiply(s.a, s.b)) == Value(s.a) * Value(s.b)
  {
    ValueMultiply(s.a, s.b);
  }

  /** The t update loses nothing: t_i = t - p * (a - a_i)^2 exactly. */
  lemma CorrectionExact(t: Dec, p: Dec, a: Dec, ai: Dec)
    ensures Value(Correction(t, p, a, ai)) == Value(t) - Value(p) * ((Value(a) - Value(ai)) * (Value(a) - Value(ai)))
  {
    var d := Subtract(a, ai);
    var m := Multiply(p, Square(d));
    ValueSubtract(t, m);
    ValueMultiply(p, Square(d));
    ValueMultiply(d, d);
    ValueSubtract(a, ai);
    SubstituteProduct(Value(t), Value(p), Value(d), Value(a) - Value(ai), Value(Square(d)), Value(m), Value(Correction(t, p, a, ai)));
  }

  lemma SubstituteProduct(t: real, p: real, d: real, d': real, sq: real, m: real, r: real)
    requires d == d' && sq == d * d && m == p * sq && r == t - m
    ensures r == t - p * (d' * d')
  {
  }

  /** p doubles on every turn, exactly: after k turns it is 2^k. */
  lemma {:induction false} IterateDoubling(s: Agm, root: Dec -> Dec, precision: nat, k: nat)
    requires s.p == One
    ensures Iterate(s, root, precision, k).p == Dec(Pow(2, k), 0)
  {
    if k > 0 {
      IterateDoubling(s, root, precision, k - 1);
      assert Pow10(0) == 1;
    }
  }

  /** After at least one turn, a has the working scale. */
  lemma IterateScale(s: Agm, root: Dec -> Dec, precision: nat, k: nat)
    requires k >= 1
    ensures Iterate(s, root, precision, k).a.scale == precision
  {
  }

  /** The final division fails exactly when t is zero. */
  lemma FinalFails(s: Agm, precision: nat)
    ensures Final(s, precision).Failure? <==> Value(s.t) == 0.0
    ensures Final(s, precision).Failure? ==> Final(s, precision).error == DivisionByZero
  {
    ValueZero(s.t);
  }

  /** The final quotient is x / d floored to P digits, and fails exactly when
      d is zero. */
  lemma QuotientIsFloor(x: Dec, d: Dec, precision: nat)
    ensures Quotient(x, d, precision).Failure? <==> d.unscaled == 0
    ensures Quotient(x, d, precision).Failure? ==> Quotient(x, d, precision).error == DivisionByZero
    ensures Quotient(x, d, precision).Success? ==>
              && Quotient(x, d, precision).value.scale == precision
              && IsFloor(Quotient(x, d, precision).value.unscaled, Value(x) / Value(d) * Pow10(precision) as real)
  {
    if d.unscaled != 0 {
      DivideFloorIsFloor(x, d, precision);
    }
  }

  /** The operands of the final division are exact: (a + b)^2 and 4t. */
  lemma FinalOperands(s: Agm)
    ensures Value(Square(Add(s.a, s.b))) == (Value(s.a) + Value(s.b)) * (Value(s.a) + Value(s.b))
    ensures Value(Multiply(Dec(4, 0), s.t)) == 4.0 * Value(s.t)
  {
    var sum := Add(s.a, s.b);
    ValueAdd(s.a, s.b);
    ValueMultiply(sum, sum);
    ValueMultiply(Dec(4, 0), s.t);
    assert Value(Dec(4, 0)) == 4.0;
  }
}

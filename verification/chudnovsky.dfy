/**
 * The Chudnovsky series evaluated by binary splitting. Every index range
 * [a, b) of the series is summarised by an exact integer triple (P, Q, T);
 * adjacent ranges combine exactly, so the fork/join split of the source (here
 * plain recursion) yields the same triple as a left-to-right fold.
 */
module Chudnovsky {
  import opened Decimals
  import PiCalcJava8

  const C: int := 640320

  /** C^3 / 24, by integer division. */
  const C3Over24: int := Pow(C, 3) / 24

  /** Ranges no longer than this are split without forking. */
  const SequentialThreshold: nat := 128

  /** The integer division that defines C3Over24 loses nothing. */
  lemma C3Over24IsExact()
    ensures 24 * C3Over24 == C * C * C
    ensures C3Over24 == 10939058860032000
  {
    assert Pow(C, 3) == C * C * C;
  }

  datatype Triple = Triple(p: int, q: int, t: int)

  /** The triple of the one-index range [a, a + 1). */
  function Base(a: nat): (r: Triple)
    ensures r.p > 0 && r.q > 0
    ensures r.t != 0 && (r.t < 0 <==> a % 2 == 1)
  {
    var p := if a == 0 then 1 else (6 * a - 5) * (2 * a - 1) * (6 * a - 1);
    var q := if a == 0 then 1 else a * a * a * C3Over24;
    var t := p * (13591409 + 545140134 * a);
    BaseFactorsPositive(a);
    MulPositive(p, 13591409 + 545140134 * a);
    Triple(p, q, if a % 2 != 0 then -t else t)
  }

  lemma BaseFactorsPositive(a: nat)
    ensures a > 0 ==> (6 * a - 5) * (2 * a - 1) * (6 * a - 1) > 0 && a * a * a * C3Over24 > 0
  {
    if a > 0 {
      MulPositive(6 * a - 5, 2 * a - 1);
      MulPositive((6 * a - 5) * (2 * a - 1), 6 * a - 1);
      MulPositive(a, a);
      MulPositive(a * a, a);
      C3Over24IsExact();
      MulPositive(a * a * a, C3Over24);
    }
  }

  /** Combine the triple of [a, m) with the triple of [m, b). Triples with
      positive P and Q combine into one with positive P and Q. */
  function Combine(l: Triple, r: Triple): (c: Triple)
    ensures l.p > 0 && l.q > 0 && r.p > 0 && r.q > 0 ==> c.p > 0 && c.q > 0
  {
    ProductPositive(l.p, r.p);
    ProductPositive(l.q, r.q);
    Triple(l.p * r.p, l.q * r.q, r.q * l.t + l.p * r.t)
  }

  lemma ProductPositive(x: int, y: int)
    ensures x > 0 && y > 0 ==> x * y > 0
  {
    if x > 0 && y > 0 {
      MulPositive(x, y);
    }
  }

  const Identity: Triple := Triple(1, 1, 0)

  /** (1, 1, 0) is a two-sided identity of Combine. */
  lemma CombineIdentity(x: Triple)
    ensures Combine(Identity, x) == x && Combine(x, Identity) == x
  {
  }

  /** Combine is associative: this is what makes any split point correct. */
  lemma CombineAssociative(x: Triple, y: Triple, z: Triple)
    ensures Combine(Combine(x, y), z) == Combine(x, Combine(y, z))
  {
    assert (x.p * y.p) * z.p == x.p * (y.p * z.p);
    assert (x.q * y.q) * z.q == x.q * (y.q * z.q);
    calc {
      z.q * (y.q * x.t + x.p * y.t) + (x.p * y.p) * z.t;
      (z.q * y.q) * x.t + (z.q * x.p) * y.t + (x.p * y.p) * z.t;
      (y.q * z.q) * x.t + x.p * (z.q * y.t) + x.p * (y.p * z.t);
      (y.q * z.q) * x.t + x.p * (z.q * y.t + y.p * z.t);
    }
  }

  /** bs(a, b): split [a, b) at its midpoint and combine the halves. */
  function Bs(a: nat, b: nat): (r: Triple)
    requires a < b
    ensures r.p > 0 && r.q > 0
    decreases b - a
  {
    if b - a == 1 then
      Base(a)
    else
      var m := (a + b) / 2;
      var l := Bs(a, m);
      var h := Bs(m, b);
      Combine(l, h)
  }

  /** The reference definition: the base triples of a, a + 1, ..., b - 1
      combined from left to right. */
  function Fold(a: nat, b: nat): Triple
    requires a < b
    decreases b - a
  {
    if b == a + 1 then Base(a) else Combine(Fold(a, b - 1), Base(b - 1))
  }

  /** Splitting [a, b) at ANY interior point m and combining gives the fold. */
  lemma {:induction false} FoldSplit(a: nat, m: nat, b: nat)
    requires a < m < b
    ensures Combine(Fold(a, m), Fold(m, b)) == Fold(a, b)
    decreases b - m
  {
    if b > m + 1 {
      calc {
        Combine(Fold(a, m), Fold(m, b));
        Combine(Fold(a, m), Combine(Fold(m, b - 1), Base(b - 1)));
        { CombineAssociative(Fold(a, m), Fold(m, b - 1), Base(b - 1)); }
        Combine(Combine(Fold(a, m), Fold(m, b - 1)), Base(b - 1));
        { FoldSplit(a, m, b - 1); }
        Combine(Fold(a, b - 1), Base(b - 1));
      }
    }
  }

  /** bs(a, b) is the sequential fold of its range. */
  lemma {:induction false} BsIsFold(a: nat, b: nat)
    requires a < b
    ensures Bs(a, b) == Fold(a, b)
    decreases b - a
  {
    if b - a > 1 {
      var m := (a + b) / 2;
      BsIsFold(a, m);
      BsIsFold(m, b);
      FoldSplit(a, m, b);
    }
  }

  /** BinarySplit.compute() on [a, b): ranges above the threshold are split at
      the same midpoint as bs, the right half forked and the left computed in
      place; smaller ranges are handed to bs. The result is exactly bs(a, b),
      whatever the scheduling. */
  function BinarySplit(a: nat, b: nat): (r: Triple)
    requires a < b
    ensures r == Bs(a, b)
    decreases b - a
  {
    if b - a <= SequentialThreshold then
      Bs(a, b)
    else
      var m := (a + b) / 2;
      Combine(BinarySplit(a, m), BinarySplit(m, b))
  }

  /** The fork/join computation returns the sequential fold of its range. */
  lemma BinarySplitIsFold(a: nat, b: nat)
    requires a < b
    ensures BinarySplit(a, b) == Fold(a, b)
  {
    BsIsFold(a, b);
  }

  /** numberOfTerms(d): `quotient` is the floating-point d / DIGITS_PER_TERM
      truncated to an integer; the result is one more, but never below 8. */
  function NumberOfTerms(quotient: nat): (n: nat)
    ensures n >= 8 && n >= quotient + 1
    ensures n == 8 || n == quotient + 1
  {
    var n := quotient + 1;
    if n < 8 then 8 else n
  }

  /** computeImpl(): pi = Q * D / T at decimalDigits + 1 digits, rounded by
      FLOOR, where (P, Q, T) is the triple of [0, n) and D = 426880 * sqrt(10005);
      `root10005` is the value sqrt(10005, decimalDigits + 1) returns. A zero T
      would be the ArithmeticException of a division by zero. */
  function ComputeImpl(calculator: PiCalcJava8.Calculator, quotient: nat, root10005: Dec): (r: Result<Dec>)
    ensures var s := Fold(0, NumberOfTerms(quotient));
            var d := Multiply(Dec(426880, 0), root10005);
            && (r.Failure? <==> s.t == 0)
            && (r.Failure? ==> r.error == DivisionByZero)
            && (r.Success? ==>
                  && r.value.scale == calculator.decimalDigits + 1
                  && r.value.unscaled == FloorDiv(s.q * d.unscaled * Pow10(r.value.scale), s.t * Pow10(d.scale)))
  {
    var precision := calculator.decimalDigits + 1;
    var n := NumberOfTerms(quotient);
    var s := BinarySplit(0, n);
    BinarySplitIsFold(0, n);
    var d := Multiply(Dec(426880, 0), root10005);
    if s.t == 0 then
      Failure(DivisionByZero)
    else
      assert Pow10(0) == 1;
      Success(Divide(Multiply(Dec(s.q, 0), d), Dec(s.t, 0), precision, Floor))
  }

  /** compute(): the value of computeImpl() floored to decimalDigits digits. */
  function Compute(calculator: PiCalcJava8.Calculator, quotient: nat, root10005: Dec)
    : (r: Result<PiCalcJava8.Outcome>)
    ensures r.Success? <==> ComputeImpl(calculator, quotient, root10005).Success?
    ensures r.Success? ==> r.value.value.scale == calculator.decimalDigits
    ensures r.Success? ==>
              r.value == PiCalcJava8.Compute(calculator, ComputeImpl(calculator, quotient, root10005).value, "Chudnovsky")
  {
    match ComputeImpl(calculator, quotient, root10005)
    case Failure(e) => Failure(e)
    case Success(v) => Success(PiCalcJava8.Compute(calculator, v, "Chudnovsky"))
  }
}

/**
 * Exact fixed-point decimals in the manner of java.math.BigDecimal: a value is
 * an unbounded unscaled integer together with a scale (the number of
 * fractional digits), and `Divide` rounds the exact quotient to a requested
 * scale, either toward negative infinity (FLOOR) or to the nearest neighbour
 * with ties away from zero (HALF_UP). Structural equality of `Dec` is exactly
 * BigDecimal.equals, which compares both the unscaled value and the scale.
 */
module Decimals {

  datatype Error = IllegalArgument(message: string) | DivisionByZero | NotConverged

  datatype Result<T> = Success(value: T) | Failure(error: Error)

  datatype Option<T> = None | Some(value: T)

  function Abs(x: int): nat { if x < 0 then -x else x }

  /** 10^n */
  function Pow10(n: nat): (r: nat)
    ensures r >= 1
  {
    if n == 0 then 1 else 10 * Pow10(n - 1)
  }

  lemma {:induction false} Pow10Add(m: nat, n: nat)
    ensures Pow10(m + n) == Pow10(m) * Pow10(n)
  {
    if m > 0 {
      Pow10Add(m - 1, n);
      assert Pow10(m + n) == 10 * Pow10(m - 1 + n);
    }
  }

  /** b^n, as BigInteger.pow and (at scale 0) BigDecimal.pow compute it. */
  function Pow(b: int, n: nat): int
  {
    if n == 0 then 1 else b * Pow(b, n - 1)
  }

  lemma {:induction false} PowPositive(b: int, n: nat)
    requires b >= 1
    ensures Pow(b, n) >= 1
  {
    if n > 0 {
      PowPositive(b, n - 1);
      MulPositive(b, Pow(b, n - 1));
    }
  }

  lemma MulPositive(x: int, y: int)
    requires x >= 1 && y >= 1
    ensures x * y >= 1 && x * y >= y
  {
    MulLe(1, x, y);
  }

  lemma MulLe(a: int, b: int, k: int)
    requires a <= b && k >= 0
    ensures a * k <= b * k
  {
    assert b * k - a * k == (b - a) * k;
  }

  lemma MulLt(a: int, b: int, k: int)
    requires a < b && k > 0
    ensures a * k < b * k
  {
    assert b * k - a * k == (b - a) * k;
    assert (b - a) * k >= k by { MulLe(1, b - a, k); }
  }

  // ---------------------------------------------------------------------
  // Integer division with the two rounding modes the calculators use

  /** Euclidean division is unique: the quotient is pinned down by its bounds. */
  lemma DivUnique(n: int, d: int, q: int)
    requires d > 0 && q * d <= n < q * d + d
    ensures n / d == q
  {
    var q' := n / d;
    assert q' * d <= n < q' * d + d;
    if q' < q {
      assert (q - q') * d >= d by { MulPositive(q - q', d); }
      assert false;
    } else if q' > q {
      assert (q' - q) * d >= d by { MulPositive(q' - q, d); }
      assert false;
    }
  }

  /** Cancelling a common positive factor leaves Euclidean division unchanged. */
  lemma DivCancel(n: int, d: int, k: int)
    requires d > 0 && k > 0
    ensures (n * k) / (d * k) == n / d
  {
    var q := n / d;
    assert q * d <= n < q * d + d;
    assert q * (d * k) <= n * k by {
      assert q * (d * k) == (q * d) * k;
      assert (n - q * d) * k >= 0;
    }
    assert n * k < q * (d * k) + d * k by {
      assert (q * d + d - n) * k > 0 by { MulPositive(q * d + d - n, k); }
    }
    DivUnique(n * k, d * k, q);
  }

  /** Division rounding toward negative infinity (RoundingMode FLOOR). Dafny's
      `/` is Euclidean, which differs from the floor when the divisor is negative. */
  function FloorDiv(a: int, b: int): (q: int)
    requires b != 0
    ensures b > 0 ==> q * b <= a < q * b + b
    ensures b < 0 ==> q * b >= a > q * b + b
  {
    if b > 0 then a / b else (-a) / (-b)
  }

  /** The floor quotient is the only integer within those bounds. */
  lemma FloorDivUnique(a: int, b: int, q: int)
    requires b > 0 && q * b <= a < q * b + b
    ensures FloorDiv(a, b) == q
  {
    DivUnique(a, b, q);
  }

  lemma FloorDivCancel(a: int, b: int, k: int)
    requires b != 0 && k > 0
    ensures FloorDiv(a * k, b * k) == FloorDiv(a, b)
  {
    var n, d := a * k, b * k;
    if b > 0 {
      MulPositive(b, k);
      DivCancel(a, b, k);
      assert FloorDiv(n, d) == n / d;
    } else {
      var a', b' := -a, -b;
      MulPositive(b', k);
      assert -n == a' * k && -d == b' * k;
      DivCancel(a', b', k);
      assert FloorDiv(n, d) == (-n) / (-d);
    }
  }

  /** Division rounding to the nearest integer, ties away from zero
      (RoundingMode HALF_UP). */
  function HalfUpDiv(a: int, b: int): (q: int)
    requires b != 0
  {
    var m := (2 * Abs(a) + Abs(b)) / (2 * Abs(b));
    if (a < 0) == (b < 0) then m else -m
  }

  /** m * B is within half of B from A: m is A / B rounded to the nearest
      integer, ties upward. */
  predicate Nearest(A: int, B: int, m: int)
  {
    2 * B * m - B <= 2 * A < 2 * B * m + B
  }

  /** The half-up quotient is the nearest integer, ties going away from zero. */
  lemma HalfUpDivBounds(a: int, b: int)
    requires b != 0
    ensures Nearest(Abs(a), Abs(b), Abs(HalfUpDiv(a, b)))
    ensures (a < 0) == (b < 0) ==> HalfUpDiv(a, b) >= 0
    ensures (a < 0) != (b < 0) ==> HalfUpDiv(a, b) <= 0
  {
    var A, B := Abs(a), Abs(b);
    var m: int := (2 * A + B) / (2 * B);
    NearestBounds(A, B, m);
    var q := HalfUpDiv(a, b);
    assert q == if (a < 0) == (b < 0) then m else -m;
    assert Abs(q) == m;
  }

  lemma NearestBounds(A: nat, B: nat, m: int)
    requires B > 0 && m == (2 * A + B) / (2 * B)
    ensures m >= 0 && Nearest(A, B, m)
  {
    var d := 2 * B;
    assert m * d <= 2 * A + B < m * d + d;
    assert 2 * B * m == m * d;
  }

  lemma AbsMul(a: int, k: int)
    requires k > 0
    ensures Abs(a * k) == Abs(a) * k && (a * k < 0) == (a < 0)
  {
    if a < 0 {
      MulLt(a, 0, k);
      assert -(a * k) == (-a) * k;
    } else {
      MulLe(0, a, k);
    }
  }

  lemma HalfUpDivCancel(a: int, b: int, k: int)
    requires b != 0 && k > 0
    ensures HalfUpDiv(a * k, b * k) == HalfUpDiv(a, b)
  {
    AbsMul(a, k);
    AbsMul(b, k);
    NearestCancel(Abs(a), Abs(b), k, Abs(a * k), Abs(b * k));
  }

  lemma NearestCancel(A: int, B: int, k: int, AK: int, BK: int)
    requires B > 0 && k > 0 && AK == A * k && BK == B * k
    ensures (2 * AK + BK) / (2 * BK) == (2 * A + B) / (2 * B)
  {
    var n, d := 2 * A + B, 2 * B;
    assert 2 * AK + BK == n * k;
    assert 2 * BK == d * k;
    DivCancel(n, d, k);
  }

  // ---------------------------------------------------------------------
  // Decimal values

  datatype Dec = Dec(unscaled: int, scale: nat)

  const Zero: Dec := Dec(0, 0)
  const One: Dec := Dec(1, 0)
  const Two: Dec := Dec(2, 0)

  datatype RoundingMode = Floor | HalfUp

  /** The rational number a decimal denotes. */
  function Value(x: Dec): real
  {
    x.unscaled as real / Pow10(x.scale) as real
  }

  function Round(a: int, b: int, mode: RoundingMode): int
    requires b != 0
  {
    match mode
    case Floor => FloorDiv(a, b)
    case HalfUp => HalfUpDiv(a, b)
  }

  /** x.divide(y, s, mode): the exact quotient x / y rounded to scale s. */
  function Divide(x: Dec, y: Dec, s: nat, mode: RoundingMode): (r: Dec)
    requires y.unscaled != 0
    ensures r.scale == s
  {
    Dec(Round(x.unscaled * Pow10(y.scale + s), y.unscaled * Pow10(x.scale), mode), s)
  }

  /** x.add(y): exact, at the larger of the two scales. */
  function Add(x: Dec, y: Dec): (r: Dec)
    ensures r.scale == if x.scale >= y.scale then x.scale else y.scale
  {
    var s := if x.scale >= y.scale then x.scale else y.scale;
    Dec(x.unscaled * Pow10(s - x.scale) + y.unscaled * Pow10(s - y.scale), s)
  }

  function Negate(x: Dec): Dec { Dec(-x.unscaled, x.scale) }

  function Subtract(x: Dec, y: Dec): Dec { Add(x, Negate(y)) }

  /** x.multiply(y): exact, at the sum of the two scales. */
  function Multiply(x: Dec, y: Dec): Dec { Dec(x.unscaled * y.unscaled, x.scale + y.scale) }

  /** x.pow(2) */
  function Square(x: Dec): Dec { Multiply(x, x) }

  /** x.setScale(s, FLOOR): the largest decimal of scale s not above x. */
  function SetScaleFloor(x: Dec, s: nat): (r: Dec)
    ensures r.scale == s
    ensures r.unscaled * Pow10(x.scale) <= x.unscaled * Pow10(s) < (r.unscaled + 1) * Pow10(x.scale)
  {
    if s >= x.scale then
      var k := Pow10(s - x.scale);
      Pow10Add(s - x.scale, x.scale);
      ScaleUpBounds(x.unscaled, k, Pow10(x.scale));
      Dec(x.unscaled * k, s)
    else
      var k := Pow10(x.scale - s);
      var q := FloorDiv(x.unscaled, k);
      Pow10Add(x.scale - s, s);
      ScaleDownBounds(x.unscaled, q, k, Pow10(s));
      Dec(q, s)
  }

  lemma ScaleUpBounds(u: int, k: int, p: int)
    requires p > 0
    ensures (u * k) * p <= u * (k * p) < (u * k + 1) * p
  {
    assert (u * k) * p == u * (k * p);
    assert (u * k + 1) * p == (u * k) * p + p;
  }

  lemma ScaleDownBounds(u: int, q: int, k: int, p: int)
    requires k > 0 && p > 0 && q * k <= u < q * k + k
    ensures q * (k * p) <= u * p < (q + 1) * (k * p)
  {
    MulLe(q * k, u, p);
    MulLt(u, q * k + k, p);
    assert (q * k) * p == q * (k * p);
    assert (q * k + k) * p == (q + 1) * (k * p);
  }

  // ---------------------------------------------------------------------
  // Exactness of the non-rounding operations

  lemma RealCancel(u: real, k: real, p: real)
    requires k > 0.0 && p > 0.0
    ensures (u * k) / (k * p) == u / p
  {
    assert (u / p) * (k * p) == u * k;
  }

  lemma RealSplit(a: real, b: real, p: real)
    requires p > 0.0
    ensures (a + b) / p == a / p + b / p
  {
  }

  lemma RealProduct(u: real, v: real, p: real, q: real)
    requires p > 0.0 && q > 0.0
    ensures (u * v) / (p * q) == (u / p) * (v / q)
  {
    assert (u / p) * (v / q) * (p * q) == (u / p * p) * (v / q * q);
  }

  lemma RealOfProduct(a: int, b: int)
    ensures (a * b) as real == a as real * b as real
  {
  }

  lemma ScaleUpReal(u: int, k: int, p: int, n: int)
    requires k > 0 && p > 0 && n == k * p
    ensures (u * k) as real / n as real == u as real / p as real
  {
    RealOfProduct(k, p);
    RealOfProduct(u, k);
    RealCancel(u as real, k as real, p as real);
  }

  lemma ValueScaleUp(u: int, s: nat, t: nat)
    requires s <= t
    ensures Value(Dec(u * Pow10(t - s), t)) == Value(Dec(u, s))
  {
    Pow10Add(t - s, s);
    ScaleUpReal(u, Pow10(t - s), Pow10(s), Pow10(t));
  }

  lemma ValueAdd(x: Dec, y: Dec)
    ensures Value(Add(x, y)) == Value(x) + Value(y)
  {
    var s := Add(x, y).scale;
    ValueScaleUp(x.unscaled, x.scale, s);
    ValueScaleUp(y.unscaled, y.scale, s);
    var a := x.unscaled * Pow10(s - x.scale);
    var b := y.unscaled * Pow10(s - y.scale);
    RealSplit(a as real, b as real, Pow10(s) as real);
  }

  lemma ValueNegate(x: Dec)
    ensures Value(Negate(x)) == -Value(x)
  {
  }

  lemma ValueSubtract(x: Dec, y: Dec)
    ensures Value(Subtract(x, y)) == Value(x) - Value(y)
  {
    ValueAdd(x, Negate(y));
    ValueNegate(y);
  }

  lemma ValueMultiply(x: Dec, y: Dec)
    ensures Value(Multiply(x, y)) == Value(x) * Value(y)
  {
    Pow10Add(x.scale, y.scale);
    var px, py := Pow10(x.scale), Pow10(y.scale);
    RealOfProduct(px, py);
    RealOfProduct(x.unscaled, y.unscaled);
    RealProduct(x.unscaled as real, y.unscaled as real, px as real, py as real);
  }

  /** Dividing a decimal of scale s by a positive integer at scale s is the
      floor (or half-up) division of its unscaled value: this is what lets a
      running sum at a fixed scale be modelled by its unscaled integers. */
  lemma DivideAtScale(u: int, k: int, s: nat, mode: RoundingMode)
    requires k != 0
    ensures Divide(Dec(u, s), Dec(k, 0), s, mode) == Dec(Round(u, k, mode), s)
  {
    assert Pow10(0 + s) == Pow10(s);
    FloorDivCancel(u, k, Pow10(s));
    HalfUpDivCancel(u, k, Pow10(s));
  }

  /** A scale-0 integer and the same number written at scale s divide alike. */
  lemma DivideScaledInteger(u: int, k: int, s: nat, mode: RoundingMode)
    requires k != 0
    ensures Divide(Dec(u, 0), Dec(k, 0), s, mode) == Dec(Round(u * Pow10(s), k, mode), s)
  {
    assert Pow10(0 + s) == Pow10(s);
  }

  /** Nested floors collapse: floor(floor(a / b) / c) == floor(a / (b * c)). */
  lemma FloorDivTwice(a: int, b: int, c: int)
    requires b > 0 && c > 0
    ensures FloorDiv(FloorDiv(a, b), c) == FloorDiv(a, b * c)
  {
    var q1 := FloorDiv(a, b);
    var q2 := FloorDiv(q1, c);
    MulLe(q2 * c, q1, b);
    MulLe(q1 + 1, q2 * c + c, b);
    assert (q2 * c) * b == q2 * (b * c);
    assert (q2 * c + c) * b == q2 * (b * c) + b * c;
    MulPositive(b, c);
    FloorDivUnique(a, b * c, q2);
  }

  /** Flooring a division by a positive integer never increases the magnitude. */
  lemma FloorDivShrinks(p: int, k: int)
    requires k >= 1
    ensures Abs(FloorDiv(p, k)) <= Abs(p)
    ensures p >= 0 ==> FloorDiv(p, k) >= 0
    ensures p <= 0 ==> FloorDiv(p, k) <= 0
  {
    var q := FloorDiv(p, k);
    if p >= 0 {
      if q > p {
        MulLe(1, k, q);
        assert false;
      }
      if q < 0 {
        MulLt(q, 0, k);
        assert false;
      }
    } else {
      if q < p {
        MulLe(q + 1, p, k);
        MulLe(1, k, -p);
        assert false;
      }
      if q > 0 {
        MulLe(1, q, k);
        assert false;
      }
    }
  }

  // ---------------------------------------------------------------------
  // FLOOR division as the floor of the exact real quotient

  /** r is the floor of x: the greatest integer not above x. */
  predicate IsFloor(r: int, x: real)
  {
    r as real <= x < (r + 1) as real
  }

  /** FloorDiv is the floor of the real quotient, whatever the divisor's sign. */
  lemma FloorDivIsFloor(n: int, d: int)
    requires d != 0
    ensures IsFloor(FloorDiv(n, d), n as real / d as real)
  {
    var q := FloorDiv(n, d);
    RealOfProduct(q, d);
    RealOfProduct(q + 1, d);
    RealFloorBounds(q as real, n as real, d as real);
  }

  lemma RealMulLt(a: real, b: real, k: real)
    requires a < b && k > 0.0
    ensures a * k < b * k
  {
    assert b * k - a * k == (b - a) * k;
  }

  lemma RealFloorBounds(q: real, n: real, d: real)
    requires d != 0.0
    requires d > 0.0 ==> q * d <= n < (q + 1.0) * d
    requires d < 0.0 ==> q * d >= n > (q + 1.0) * d
    ensures q <= n / d < q + 1.0
  {
    var x := n / d;
    assert x * d == n;
    var e := if d > 0.0 then d else -d;
    if x < q {
      RealMulLt(x, q, e);
      assert false;
    }
    if x >= q + 1.0 {
      if x > q + 1.0 {
        RealMulLt(q + 1.0, x, e);
      }
      assert false;
    }
  }

  /** x.divide(y, s, FLOOR) has as unscaled value the floor of (x / y) * 10^s:
      the largest decimal of scale s not above the exact quotient. */
  lemma DivideFloorIsFloor(x: Dec, y: Dec, s: nat)
    requires y.unscaled != 0
    ensures IsFloor(Divide(x, y, s, Floor).unscaled, Value(x) / Value(y) * Pow10(s) as real)
  {
    assert Divide(x, y, s, Floor).unscaled
        == FloorDiv(x.unscaled * (Pow10(y.scale) * Pow10(s)), y.unscaled * Pow10(x.scale)) by {
      Pow10Add(y.scale, s);
    }
    ScaledQuotientIsFloor(x, y, s, Divide(x, y, s, Floor).unscaled);
  }

  lemma ScaledQuotientIsFloor(x: Dec, y: Dec, s: nat, q: int)
    requires y.unscaled != 0
    requires q == FloorDiv(x.unscaled * (Pow10(y.scale) * Pow10(s)), y.unscaled * Pow10(x.scale))
    ensures IsFloor(q, Value(x) / Value(y) * Pow10(s) as real)
  {
    ValuesQuotientIsFloor(x, y, s, q, Value(x), Value(y));
  }

  lemma ValuesQuotientIsFloor(x: Dec, y: Dec, s: nat, q: int, vx: real, vy: real)
    requires y.unscaled != 0
    requires q == FloorDiv(x.unscaled * (Pow10(y.scale) * Pow10(s)), y.unscaled * Pow10(x.scale))
    requires vx == Value(x) && vy == Value(y)
    ensures IsFloor(q, vx / vy * Pow10(s) as real)
  {
    FloorOfQuotient(x.unscaled, y.unscaled, Pow10(x.scale), Pow10(y.scale), Pow10(s), q, vx, vy);
  }

  lemma FloorOfQuotient(u: int, v: int, px: int, py: int, ps: int, q: int, vx: real, vy: real)
    requires v != 0 && px > 0 && py > 0 && ps > 0
    requires q == FloorDiv(u * (py * ps), v * px)
    requires vx == u as real / px as real && vy == v as real / py as real
    ensures IsFloor(q, vx / vy * ps as real)
  {
    var n, d := u * (py * ps), v * px;
    var U, V, X, Y, S := u as real, v as real, px as real, py as real, ps as real;
    var N, D := n as real, d as real;
    assert N == U * (Y * S) && D == V * X by {
      RealOfProduct(py, ps);
      RealOfProduct(u, py * ps);
      RealOfProduct(v, px);
    }
    assert N / D == vx / vy * S by {
      QuotientOfScaled(U, V, X, Y, S, vx, vy);
    }
    FloorDivAt(n, d, q, vx / vy * S);
  }

  lemma FloorDivAt(n: int, d: int, q: int, w: real)
    requires d != 0 && q == FloorDiv(n, d) && n as real / d as real == w
    ensures IsFloor(q, w)
  {
    FloorDivIsFloor(n, d);
  }

  lemma QuotientOfScaled(U: real, V: real, X: real, Y: real, S: real, vx: real, vy: real)
    requires V != 0.0 && X > 0.0 && Y > 0.0 && S > 0.0
    requires vx == U / X && vy == V / Y
    ensures (U * (Y * S)) / (V * X) == vx / vy * S
  {
    assert vx * X == U;
    assert vy * Y == V;
    assert vy != 0.0;
    var r := vx / vy;
    assert r * vy == vx;
    var w := r * S;
    var N, D := U * (Y * S), V * X;
    assert D != 0.0;
    assert w * D == N by {
      calc {
        w * D;
        (r * S) * ((vy * Y) * X);
        (r * vy) * (X * Y * S);
        vx * (X * Y * S);
        (vx * X) * (Y * S);
      }
    }
    assert (N / D) * D == N;
    assert (N / D - w) * D == 0.0;
  }

  /** A decimal is zero exactly when its unscaled value is. */
  lemma ValueZero(x: Dec)
    ensures Value(x) == 0.0 <==> x.unscaled == 0
  {
    RealQuotientZero(x.unscaled as real, Pow10(x.scale) as real);
  }

  lemma RealQuotientZero(u: real, d: real)
    requires d > 0.0
    ensures u / d == 0.0 <==> u == 0.0
  {
    if u / d == 0.0 {
      assert u == (u / d) * d;
    }
  }
}

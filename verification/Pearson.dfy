/** The correlation coefficient of two equity curves (internal/backtest/correlation_tracker.go).

    Floats are modelled as reals.  `math.Sqrt` is a parameter, known only by its defining
    property IsSqrt: on a non-negative argument it returns the non-negative root. */
module Pearson {
  import opened Common

  const DEGENERATE: real := 0.000000000001

  ghost predicate IsSqrt(sqrt: real -> real) {
    forall x: real :: x >= 0.0 ==> sqrt(x) >= 0.0 && sqrt(x) * sqrt(x) == x
  }

  function Product(x: real, y: real): real {
    x * y
  }

  function Dot(xs: seq<real>, ys: seq<real>): real
    requires |xs| == |ys|
  {
    if xs == [] then 0.0
    else Dot(xs[..|xs| - 1], ys[..|ys| - 1]) + Product(xs[|xs| - 1], ys[|ys| - 1])
  }

  /** One period's return; a non-positive base leaves the slot at its zero value. */
  function ReturnAt(before: real, after: real): real {
    if before > 0.0 then (after - before) / before else 0.0
  }

  function Returns(equity: seq<real>): (rs: seq<real>)
    ensures |rs| == if |equity| < 2 then 0 else |equity| - 1
    ensures forall i :: 0 <= i < |rs| ==> rs[i] == ReturnAt(equity[i], equity[i + 1])
  {
    if |equity| < 2 then []
    else seq(|equity| - 1, i requires 0 <= i < |equity| - 1 => ReturnAt(equity[i], equity[i + 1]))
  }

  function Min(a: int, b: int): int {
    if a < b then a else b
  }

  function Tail(xs: seq<real>, n: nat): (t: seq<real>)
    requires n <= |xs|
    ensures |t| == n
  {
    xs[|xs| - n..]
  }

  /** n times the co-moment about the mean: the numerator when xs and ys differ, one factor
      under the root when they are the same. */
  function Covariance(xs: seq<real>, ys: seq<real>): real
    requires |xs| == |ys|
  {
    Spread(|xs|, Dot(xs, ys), Sum(xs), Sum(ys))
  }

  function Spread(n: nat, dot: real, sumX: real, sumY: real): real {
    n as real * dot - sumX * sumY
  }

  function Coefficient(xs: seq<real>, ys: seq<real>, sqrt: real -> real): real
    requires |xs| == |ys|
  {
    var den := sqrt(Product(Covariance(xs, xs), Covariance(ys, ys)));
    if den < DEGENERATE then 0.0 else Covariance(xs, ys) / den
  }

  function Correlation(eqA: seq<real>, eqB: seq<real>, sqrt: real -> real): real {
    OfReturns(Returns(eqA), Returns(eqB), sqrt)
  }

  function OfReturns(ra: seq<real>, rb: seq<real>, sqrt: real -> real): real {
    var n := Min(|ra|, |rb|);
    if n < 2 then 0.0 else Coefficient(Tail(ra, n), Tail(rb, n), sqrt)
  }

  // ---------------------------------------------------------------- the source's loops

  method ReturnsFromEquity(equity: seq<real>) returns (rs: seq<real>)
    ensures rs == Returns(equity)
  {
    if |equity| < 2 {
      return [];
    }
    var slots := new real[|equity| - 1](_ => 0.0);
    for i := 1 to |equity|
      invariant forall k :: 0 <= k < i - 1 ==> slots[k] == ReturnAt(equity[k], equity[k + 1])
      invariant forall k :: i - 1 <= k < slots.Length ==> slots[k] == 0.0
    {
      if equity[i - 1] > 0.0 {
        slots[i - 1] := (equity[i] - equity[i - 1]) / equity[i - 1];
      }
    }
    rs := slots[..];
  }

  lemma SumEmpty()
    ensures Sum([]) == 0.0 && Dot([], []) == 0.0
  {}

  lemma SumStep(xs: seq<real>, i: nat)
    requires i < |xs|
    ensures Sum(xs[..i + 1]) == Sum(xs[..i]) + xs[i]
  {
    assert xs[..i + 1][..i] == xs[..i];
  }

  lemma DotStep(xs: seq<real>, ys: seq<real>, i: nat)
    requires i < |xs| == |ys|
    ensures Dot(xs[..i + 1], ys[..i + 1]) == Dot(xs[..i], ys[..i]) + Product(xs[i], ys[i])
  {
    hide Product;
    assert xs[..i + 1][..i] == xs[..i] && ys[..i + 1][..i] == ys[..i];
  }

  method RunningSums(a: seq<real>, b: seq<real>)
    returns (sumA: real, sumB: real, sumAB: real, sumA2: real, sumB2: real)
    requires |a| == |b|
    ensures sumA == Sum(a) && sumB == Sum(b)
    ensures sumAB == Dot(a, b) && sumA2 == Dot(a, a) && sumB2 == Dot(b, b)
  {
    sumA, sumB, sumAB, sumA2, sumB2 := 0.0, 0.0, 0.0, 0.0, 0.0;
    SumEmpty();
    hide Sum, Dot;
    for i := 0 to |a|
      invariant sumA == Sum(a[..i]) && sumB == Sum(b[..i])
      invariant sumAB == Dot(a[..i], b[..i])
      invariant sumA2 == Dot(a[..i], a[..i]) && sumB2 == Dot(b[..i], b[..i])
    {
      SumStep(a, i);
      SumStep(b, i);
      DotStep(a, b, i);
      DotStep(a, a, i);
      DotStep(b, b, i);
      sumA := sumA + a[i];
      sumB := sumB + b[i];
      sumAB := sumAB + a[i] * b[i];
      sumA2 := sumA2 + a[i] * a[i];
      sumB2 := sumB2 + b[i] * b[i];
    }
    assert a[..|a|] == a && b[..|b|] == b;
  }

  function FromSums(n: nat, sumA: real, sumB: real, sumAB: real, sumA2: real, sumB2: real,
                    sqrt: real -> real): real {
    var num := Spread(n, sumAB, sumA, sumB);
    var den := sqrt(Product(Spread(n, sumA2, sumA, sumA), Spread(n, sumB2, sumB, sumB)));
    if den < DEGENERATE then 0.0 else num / den
  }

  lemma CoefficientFromSums(a: seq<real>, b: seq<real>, sqrt: real -> real)
    requires |a| == |b|
    ensures FromSums(|a|, Sum(a), Sum(b), Dot(a, b), Dot(a, a), Dot(b, b), sqrt) == Coefficient(a, b, sqrt)
  {
    hide Sum, Dot, Product, Spread;
  }

  /** The running-sum computation is Pearson's coefficient of the latest common returns, its root
      is taken of a non-negative number, and its result is a correlation. */
  method ComputePearson(eqA: seq<real>, eqB: seq<real>, sqrt: real -> real) returns (rho: real)
    requires IsSqrt(sqrt)
    ensures rho == Correlation(eqA, eqB, sqrt) && IsPearson(rho, eqA, eqB, sqrt)
    ensures -1.0 <= rho <= 1.0
  {
    hide Dot, Sum, IsSqrt, Returns, OfReturns, IsPearson;
    CorrelationBounded(eqA, eqB, sqrt);
    CorrelationIsPearson(eqA, eqB, sqrt);
    if |eqA| < 2 || |eqB| < 2 {
      ShortSeries(Returns(eqA), Returns(eqB), sqrt);
      return 0.0;
    }
    var returnsA := ReturnsFromEquity(eqA);
    var returnsB := ReturnsFromEquity(eqB);
    rho := PearsonOfReturns(returnsA, returnsB, sqrt);
  }

  lemma ShortSeries(ra: seq<real>, rb: seq<real>, sqrt: real -> real)
    requires |ra| < 2 || |rb| < 2
    ensures OfReturns(ra, rb, sqrt) == 0.0
  {}

  method PearsonOfReturns(ra: seq<real>, rb: seq<real>, sqrt: real -> real) returns (rho: real)
    ensures rho == OfReturns(ra, rb, sqrt)
  {
    hide Dot, Sum, Spread, Product, Coefficient;
    var n := Min(|ra|, |rb|);
    if n < 2 {
      return 0.0;
    }
    var a, b := ra[|ra| - n..], rb[|rb| - n..];
    var sumA, sumB, sumAB, sumA2, sumB2 := RunningSums(a, b);
    CoefficientFromSums(a, b, sqrt);
    var num := Spread(n, sumAB, sumA, sumB);
    var den := sqrt(Product(Spread(n, sumA2, sumA, sumA), Spread(n, sumB2, sumB, sumB)));
    if den < DEGENERATE {
      return 0.0;
    }
    rho := num / den;
  }

  // ---------------------------------------------------------------- well-definedness

  lemma ProductPositive(x: real, y: real)
    requires x > 0.0 && y > 0.0
    ensures x * y > 0.0
  {}

  lemma SquareNonNegative(x: real)
    ensures x * x >= 0.0
  {}

  lemma FactorNonNegative(n: real, x: real)
    requires n > 0.0 && n * x >= 0.0
    ensures x >= 0.0
  {}

  lemma VarianceStep(n: real, s: real, q: real, x: real)
    requires n >= 1.0 && n * q - s * s >= 0.0
    ensures (n + 1.0) * (q + x * x) - (s + x) * (s + x) >= 0.0
  {
    var gap := q + n * (x * x) - 2.0 * (s * x);
    var d := s - n * x;
    assert n * gap == (n * q - s * s) + d * d by {
      assert d * d == s * s - 2.0 * (n * (s * x)) + (n * n) * (x * x);
    }
    SquareNonNegative(d);
    FactorNonNegative(n, gap);
    assert (n + 1.0) * (q + x * x) - (s + x) * (s + x) == (n * q - s * s) + gap;
  }

  /** Both factors under the root are non-negative: n * sum of squares >= square of the sum. */
  lemma {:induction false} VarianceNonNegative(xs: seq<real>)
    ensures Covariance(xs, xs) >= 0.0
  {
    if |xs| > 0 {
      var front, x := xs[..|xs| - 1], xs[|xs| - 1];
      VarianceNonNegative(front);
      if |front| == 0 {
        assert Sum(xs) == x && Dot(xs, xs) == x * x;
      } else {
        VarianceStep(|front| as real, Sum(front), Dot(front, front), x);
      }
    }
  }

  // ---------------------------------------------------------------- Cauchy-Schwarz

  function Mix(x: real, t: real, y: real): real {
    x + t * y
  }

  function Axpy(xs: seq<real>, t: real, ys: seq<real>): (zs: seq<real>)
    requires |xs| == |ys|
    ensures |zs| == |xs| && forall i :: 0 <= i < |zs| ==> zs[i] == Mix(xs[i], t, ys[i])
  {
    seq(|xs|, i requires 0 <= i < |xs| => Mix(xs[i], t, ys[i]))
  }

  lemma AxpyFront(xs: seq<real>, t: real, ys: seq<real>)
    requires |xs| == |ys| > 0
    ensures Axpy(xs, t, ys)[..|xs| - 1] == Axpy(xs[..|xs| - 1], t, ys[..|ys| - 1])
  {
    var k := |xs| - 1;
    forall i | 0 <= i < k
      ensures Axpy(xs, t, ys)[..k][i] == Axpy(xs[..k], t, ys[..k])[i]
    {
      assert xs[..k][i] == xs[i] && ys[..k][i] == ys[i];
    }
  }

  lemma SumLast(xs: seq<real>)
    requires xs != []
    ensures Sum(xs) == Sum(xs[..|xs| - 1]) + xs[|xs| - 1]
  {}

  lemma MixStep(t: real, sx: real, sy: real, x: real, y: real)
    ensures Mix(sx, t, sy) + Mix(x, t, y) == Mix(sx + x, t, sy + y)
    ensures Mix(0.0, t, 0.0) == 0.0
  {
    Distribute(t, sy, y);
  }

  lemma {:induction false} SumAxpy(xs: seq<real>, t: real, ys: seq<real>)
    requires |xs| == |ys|
    ensures Sum(Axpy(xs, t, ys)) == Mix(Sum(xs), t, Sum(ys))
  {
    hide Mix;
    if |xs| == 0 {
      MixStep(t, 0.0, 0.0, 0.0, 0.0);
    } else {
      var k := |xs| - 1;
      AxpyFront(xs, t, ys);
      SumAxpy(xs[..k], t, ys[..k]);
      SumLast(xs);
      SumLast(ys);
      SumLast(Axpy(xs, t, ys));
      hide Sum;
      MixStep(t, Sum(xs[..k]), Sum(ys[..k]), xs[k], ys[k]);
    }
  }

  lemma SquareOfSum(x: real, t: real, y: real)
    ensures (x + t * y) * (x + t * y) == x * x + 2.0 * t * (x * y) + t * t * (y * y)
  {
    var w := t * y;
    assert (x + w) * (x + w) == x * x + 2.0 * (x * w) + w * w;
    assert x * w == t * (x * y);
    assert w * w == t * t * (y * y);
  }

  lemma Distribute(t: real, u: real, v: real)
    ensures t * (u + v) == t * u + t * v
  {}

  lemma DotLast(xs: seq<real>, ys: seq<real>)
    requires |xs| == |ys| > 0
    ensures Dot(xs, ys) == Dot(xs[..|xs| - 1], ys[..|ys| - 1]) + Product(xs[|xs| - 1], ys[|ys| - 1])
  {
    hide Product;
  }

  ghost function Quadratic(a: real, b: real, c: real, t: real): real {
    a + 2.0 * t * b + t * t * c
  }

  lemma {:induction false} DotAxpy(xs: seq<real>, t: real, ys: seq<real>)
    requires |xs| == |ys|
    ensures Dot(Axpy(xs, t, ys), Axpy(xs, t, ys)) == Quadratic(Dot(xs, xs), Dot(xs, ys), Dot(ys, ys), t)
  {
    hide Product, Quadratic, Mix;
    if |xs| == 0 {
      QuadraticZero(t);
    } else {
      var k := |xs| - 1;
      var zs := Axpy(xs, t, ys);
      AxpyFront(xs, t, ys);
      DotAxpy(xs[..k], t, ys[..k]);
      DotLast(zs, zs);
      DotLast(xs, xs);
      DotLast(xs, ys);
      DotLast(ys, ys);
      QuadraticStep(t, xs[k], ys[k], zs[k], Dot(xs[..k], xs[..k]), Dot(xs[..k], ys[..k]), Dot(ys[..k], ys[..k]));
    }
  }

  lemma QuadraticZero(t: real)
    ensures Quadratic(0.0, 0.0, 0.0, t) == 0.0
  {}

  lemma QuadraticStep(t: real, x: real, y: real, z: real, a: real, b: real, c: real)
    requires z == Mix(x, t, y)
    ensures Quadratic(a, b, c, t) + Product(z, z)
         == Quadratic(a + Product(x, x), b + Product(x, y), c + Product(y, y), t)
  {
    SquareOfSum(x, t, y);
    Distribute(2.0 * t, b, x * y);
    Distribute(t * t, c, y * y);
  }

  lemma CovarianceAxpy(xs: seq<real>, t: real, ys: seq<real>)
    requires |xs| == |ys|
    ensures Covariance(Axpy(xs, t, ys), Axpy(xs, t, ys))
         == Quadratic(Covariance(xs, xs), Covariance(xs, ys), Covariance(ys, ys), t)
  {
    hide Dot, Sum;
    SumAxpy(xs, t, ys);
    DotAxpy(xs, t, ys);
    QuadraticIdentity(|xs| as real, t, Sum(xs), Sum(ys), Dot(xs, xs), Dot(xs, ys), Dot(ys, ys));
  }

  lemma QuadraticIdentity(n: real, t: real, p: real, q: real, a: real, b: real, c: real)
    ensures n * Quadratic(a, b, c, t) - (p + t * q) * (p + t * q)
         == Quadratic(n * a - p * p, n * b - p * q, n * c - q * q, t)
  {
    ScaleQuadratic(n, a, b, c, t);
    SquareOfSum(p, t, q);
    assert Quadratic(p * p, p * q, q * q, t) == (p + t * q) * (p + t * q);
    QuadraticDifference(n * a, n * b, n * c, p * p, p * q, q * q, t);
    hide Quadratic;
  }

  lemma Reorder(n: real, u: real, b: real)
    ensures n * (u * b) == u * (n * b)
  {}

  lemma ScaleQuadratic(n: real, a: real, b: real, c: real, t: real)
    ensures n * Quadratic(a, b, c, t) == Quadratic(n * a, n * b, n * c, t)
  {
    var u, v := 2.0 * t, t * t;
    Distribute(n, a + u * b, v * c);
    Distribute(n, a, u * b);
    Reorder(n, u, b);
    Reorder(n, v, c);
  }

  lemma QuadraticDifference(a: real, b: real, c: real, x: real, y: real, z: real, t: real)
    ensures Quadratic(a, b, c, t) - Quadratic(x, y, z, t) == Quadratic(a - x, b - y, c - z, t)
  {
    var u, v := 2.0 * t, t * t;
    Distribute(u, b - y, y);
    Distribute(v, c - z, z);
  }

  lemma NegativeLine(a: real, b: real)
    requires b != 0.0
    ensures Quadratic(a, b, 0.0, -(a + 1.0) / (2.0 * b)) == -1.0
  {
    var t := -(a + 1.0) / (2.0 * b);
    assert t * (2.0 * b) == -(a + 1.0);
  }

  /** A quadratic that is never negative has a non-positive discriminant. */
  lemma Discriminant(a: real, b: real, c: real)
    requires a >= 0.0 && c >= 0.0
    requires forall t: real :: Quadratic(a, b, c, t) >= 0.0
    ensures b * b <= a * c
  {
    if c > 0.0 {
      var t := -b / c;
      assert t * c == -b;
      assert Quadratic(a, b, c, t) >= 0.0;
      assert t * t * c == -(b * t) by { assert t * t * c == t * (t * c); }
      assert a + b * t >= 0.0;
      assert (a + b * t) * c == a * c - b * b by { assert b * t * c == b * (t * c); }
      ProductNonNegative(a + b * t, c);
    } else if b != 0.0 {
      NegativeLine(a, b);
      assert false;
    }
  }

  lemma CauchySchwarz(xs: seq<real>, ys: seq<real>)
    requires |xs| == |ys|
    ensures Covariance(xs, ys) * Covariance(xs, ys) <= Covariance(xs, xs) * Covariance(ys, ys)
  {
    hide Dot, Sum, Covariance;
    VarianceNonNegative(xs);
    VarianceNonNegative(ys);
    forall t: real
      ensures Quadratic(Covariance(xs, xs), Covariance(xs, ys), Covariance(ys, ys), t) >= 0.0
    {
      CovarianceAxpy(xs, t, ys);
      VarianceNonNegative(Axpy(xs, t, ys));
    }
    Discriminant(Covariance(xs, xs), Covariance(xs, ys), Covariance(ys, ys));
  }

  lemma SquareGrows(y: real, x: real)
    requires 0.0 <= y < x
    ensures y * y < x * x
  {
    ProductPositive(x - y, x + y);
    assert (x - y) * (x + y) == x * x - y * y;
  }

  lemma SquareOrder(x: real, y: real)
    requires y >= 0.0 && x * x <= y * y
    ensures -y <= x <= y
  {
    if x > y {
      SquareGrows(y, x);
      assert false;
    } else if x < -y {
      SquareGrows(y, -x);
      assert false;
    }
  }

  lemma QuotientBounded(num: real, den: real)
    requires den > 0.0 && -den <= num <= den
    ensures -1.0 <= num / den <= 1.0
  {
    var q := num / den;
    assert den * (1.0 - q) == den - num;
    assert den * (1.0 + q) == den + num;
    FactorNonNegative(den, 1.0 - q);
    FactorNonNegative(den, 1.0 + q);
  }

  lemma CoefficientBounded(xs: seq<real>, ys: seq<real>, sqrt: real -> real)
    requires |xs| == |ys| && IsSqrt(sqrt)
    ensures Covariance(xs, xs) * Covariance(ys, ys) >= 0.0
    ensures -1.0 <= Coefficient(xs, ys, sqrt) <= 1.0
  {
    hide Dot, Sum, Covariance;
    VarianceNonNegative(xs);
    VarianceNonNegative(ys);
    ProductNonNegative(Covariance(xs, xs), Covariance(ys, ys));
    CauchySchwarz(xs, ys);
    var den := sqrt(Product(Covariance(xs, xs), Covariance(ys, ys)));
    if den >= DEGENERATE {
      SquareOrder(Covariance(xs, ys), den);
      QuotientBounded(Covariance(xs, ys), den);
    }
  }

  /** For any two equity histories the result is a correlation. */
  lemma CorrelationBounded(eqA: seq<real>, eqB: seq<real>, sqrt: real -> real)
    requires IsSqrt(sqrt)
    ensures -1.0 <= Correlation(eqA, eqB, sqrt) <= 1.0
  {
    var ra, rb := Returns(eqA), Returns(eqB);
    var n := Min(|ra|, |rb|);
    if n >= 2 {
      CoefficientBounded(Tail(ra, n), Tail(rb, n), sqrt);
    }
  }

  // ---------------------------------------------------------------- what is computed

  /** The base times 1 plus the return is the next equity; a base that is not positive counts 0. */
  predicate IsReturn(r: real, before: real, after: real) {
    if before > 0.0 then before * (1.0 + r) == after else r == 0.0
  }

  /** The returns of the latest periods. */
  ghost predicate AreLatestReturns(equity: seq<real>, rs: seq<real>) {
    && |rs| < |equity|
    && var first := |equity| - |rs| - 1;
       forall i :: 0 <= i < |rs| ==> IsReturn(rs[i], equity[first + i], equity[first + i + 1])
  }

  /** The sum of the products of the deviations from mx and my. */
  function CoMoment(xs: seq<real>, mx: real, ys: seq<real>, my: real): real
    requires |xs| == |ys|
  {
    if xs == [] then 0.0
    else CoMoment(xs[..|xs| - 1], mx, ys[..|ys| - 1], my) + (xs[|xs| - 1] - mx) * (ys[|ys| - 1] - my)
  }

  /** The deviations from the mean cancel out. */
  function Deviation(xs: seq<real>, m: real): real {
    if xs == [] then 0.0 else Deviation(xs[..|xs| - 1], m) + (xs[|xs| - 1] - m)
  }

  /** Pearson's coefficient of the latest returns common to both curves, about their means ma and
      mb, and 0 for fewer than two of them or a root below 10^-12. */
  ghost predicate IsPearson(rho: real, eqA: seq<real>, eqB: seq<real>, sqrt: real -> real) {
    if |eqA| < 3 || |eqB| < 3 then rho == 0.0
    else exists ra, rb, ma, mb ::
           && AreLatestReturns(eqA, ra) && AreLatestReturns(eqB, rb) && |ra| == |rb|
           && (|ra| == |eqA| - 1 || |rb| == |eqB| - 1)
           && Deviation(ra, ma) == 0.0 && Deviation(rb, mb) == 0.0
           && rho == OfDeviations(ra, ma, rb, mb, sqrt)
  }

  function OfDeviations(ra: seq<real>, ma: real, rb: seq<real>, mb: real, sqrt: real -> real): real
    requires |ra| == |rb|
  {
    var n := |ra| as real;
    var den := sqrt(Product(Product(n, CoMoment(ra, ma, ra, ma)), Product(n, CoMoment(rb, mb, rb, mb))));
    if den < 0.000000000001 then 0.0 else Product(n, CoMoment(ra, ma, rb, mb)) / den
  }

  lemma {:induction false} DeviationSum(xs: seq<real>, m: real)
    ensures Deviation(xs, m) == Sum(xs) - |xs| as real * m
  {
    if xs != [] {
      DeviationSum(xs[..|xs| - 1], m);
    }
  }

  function Expanded(n: real, d: real, sx: real, sy: real, mx: real, my: real): real {
    d - mx * sy - my * sx + n * (mx * my)
  }

  lemma CoMomentStep(n: real, d: real, sx: real, sy: real, x: real, y: real, mx: real, my: real)
    ensures Expanded(n, d, sx, sy, mx, my) + (x - mx) * (y - my)
         == Expanded(n + 1.0, d + Product(x, y), sx + x, sy + y, mx, my)
  {}

  lemma CoMomentNone(mx: real, my: real)
    ensures CoMoment([], mx, [], my) == Expanded(0.0, Dot([], []), Sum([]), Sum([]), mx, my)
  {}

  lemma CoMomentLast(xs: seq<real>, mx: real, ys: seq<real>, my: real)
    requires |xs| == |ys| > 0
    ensures CoMoment(xs, mx, ys, my)
         == CoMoment(xs[..|xs| - 1], mx, ys[..|ys| - 1], my) + (xs[|xs| - 1] - mx) * (ys[|ys| - 1] - my)
  {}

  lemma {:induction false} CoMomentSums(xs: seq<real>, mx: real, ys: seq<real>, my: real)
    requires |xs| == |ys|
    ensures CoMoment(xs, mx, ys, my) == Expanded(|xs| as real, Dot(xs, ys), Sum(xs), Sum(ys), mx, my)
  {
    hide Expanded, Sum, Dot, Product, CoMoment;
    if xs == [] {
      CoMomentNone(mx, my);
    } else {
      var n := |xs| - 1;
      CoMomentSums(xs[..n], mx, ys[..n], my);
      CoMomentLast(xs, mx, ys, my);
      DotLast(xs, ys);
      SumLast(xs);
      SumLast(ys);
      CoMomentStep(n as real, Dot(xs[..n], ys[..n]), Sum(xs[..n]), Sum(ys[..n]), xs[n], ys[n], mx, my);
    }
  }

  lemma Centred(n: nat, d: real, sx: real, sy: real, mx: real, my: real)
    requires n as real * mx == sx && n as real * my == sy
    ensures Product(n as real, Expanded(n as real, d, sx, sy, mx, my)) == Spread(n, d, sx, sy)
  {
    CentredReal(n as real, d, sx, sy, mx, my);
  }

  lemma CentredReal(n: real, d: real, sx: real, sy: real, mx: real, my: real)
    requires n * mx == sx && n * my == sy
    ensures n * (d - mx * sy - my * sx + n * (mx * my)) == n * d - sx * sy
  {
    var u, v, w := mx * sy, my * sx, n * (mx * my);
    assert n * u == sx * sy by { assert n * (mx * sy) == (n * mx) * sy; }
    assert n * v == sx * sy by { assert n * (my * sx) == (n * my) * sx; }
    assert n * w == sx * sy by { assert n * (n * (mx * my)) == (n * mx) * (n * my); }
    assert n * (d - u - v + w) == n * d - n * u - n * v + n * w;
  }

  /** The covariance is n times the sum of the products of the deviations from the means. */
  lemma CovarianceCentred(xs: seq<real>, mx: real, ys: seq<real>, my: real)
    requires |xs| == |ys| && Deviation(xs, mx) == 0.0 && Deviation(ys, my) == 0.0
    ensures Covariance(xs, ys) == Product(|xs| as real, CoMoment(xs, mx, ys, my))
  {
    hide Sum, Dot, CoMoment, Deviation, Spread, Product, Expanded;
    DeviationSum(xs, mx);
    DeviationSum(ys, my);
    CoMomentSums(xs, mx, ys, my);
    Centred(|xs|, Dot(xs, ys), Sum(xs), Sum(ys), mx, my);
  }

  lemma ReturnGrows(before: real, after: real)
    ensures IsReturn(ReturnAt(before, after), before, after)
  {
    if before > 0.0 {
      var q := (after - before) / before;
      assert before * q == after - before;
    }
  }

  lemma TailAt(equity: seq<real>, n: nat, i: nat)
    requires i < n < |equity|
    ensures var first := |equity| - n - 1;
            Tail(Returns(equity), n)[i] == ReturnAt(equity[first + i], equity[first + i + 1])
  {
    hide *;
    TailIndex(Returns(equity), n, i);
    ReturnsIndex(equity, |equity| - n - 1 + i);
  }

  lemma TailIndex(rs: seq<real>, n: nat, i: nat)
    requires i < n <= |rs|
    ensures Tail(rs, n)[i] == rs[|rs| - n + i]
  {}

  lemma ReturnsIndex(equity: seq<real>, j: nat)
    requires j < |equity| - 1
    ensures Returns(equity)[j] == ReturnAt(equity[j], equity[j + 1])
  {
    hide ReturnAt;
  }

  lemma TailIsLatest(equity: seq<real>, n: nat)
    requires n < |equity|
    ensures AreLatestReturns(equity, Tail(Returns(equity), n))
  {
    hide *;
    var rs, first := Tail(Returns(equity), n), |equity| - n - 1;
    forall i | 0 <= i < n
      ensures IsReturn(rs[i], equity[first + i], equity[first + i + 1])
    {
      TailAt(equity, n, i);
      ReturnGrows(equity[first + i], equity[first + i + 1]);
    }
    LatestReturns(equity, rs);
  }

  lemma LatestReturns(equity: seq<real>, rs: seq<real>)
    requires |rs| < |equity|
    requires forall i :: 0 <= i < |rs| ==>
               IsReturn(rs[i], equity[|equity| - |rs| - 1 + i], equity[|equity| - |rs| - 1 + i + 1])
    ensures AreLatestReturns(equity, rs)
  {
    hide IsReturn;
  }

  lemma HasMean(xs: seq<real>) returns (m: real)
    requires xs != []
    ensures Deviation(xs, m) == 0.0
  {
    var n := |xs| as real;
    m := Sum(xs) / n;
    assert n * m == Sum(xs);
    DeviationSum(xs, m);
  }

  /** What the loops compute is Pearson's coefficient of the latest common returns. */
  lemma CorrelationIsPearson(eqA: seq<real>, eqB: seq<real>, sqrt: real -> real)
    ensures IsPearson(Correlation(eqA, eqB, sqrt), eqA, eqB, sqrt)
  {
    if |eqA| >= 3 && |eqB| >= 3 {
      var n := Min(|eqA| - 1, |eqB| - 1);
      TailIsLatest(eqA, n);
      TailIsLatest(eqB, n);
      var ra, rb := Tail(Returns(eqA), n), Tail(Returns(eqB), n);
      hide Tail, Returns, AreLatestReturns;
      var ma := HasMean(ra);
      var mb := HasMean(rb);
      CoefficientCentred(ra, ma, rb, mb, sqrt);
      hide Coefficient, Deviation, OfDeviations;
    }
  }

  lemma CoefficientCentred(xs: seq<real>, mx: real, ys: seq<real>, my: real, sqrt: real -> real)
    requires |xs| == |ys| && Deviation(xs, mx) == 0.0 && Deviation(ys, my) == 0.0
    ensures Coefficient(xs, ys, sqrt) == OfDeviations(xs, mx, ys, my, sqrt)
  {
    hide Covariance, CoMoment, Deviation, Product;
    CovarianceCentred(xs, mx, xs, mx);
    CovarianceCentred(ys, my, ys, my);
    CovarianceCentred(xs, mx, ys, my);
  }

  lemma ReturnsOfTail(equity: seq<real>, k: nat)
    requires k < |equity|
    ensures Returns(equity[k..]) == Tail(Returns(equity), |equity| - 1 - k)
  {
    hide ReturnAt;
  }

  /** Of curves of different lengths the older part of the longer one does not count. */
  lemma OlderPartIgnored(eqA: seq<real>, eqB: seq<real>, sqrt: real -> real)
    ensures |eqA| >= |eqB| >= 2 ==> Correlation(eqA, eqB, sqrt) == Correlation(eqA[|eqA| - |eqB|..], eqB, sqrt)
    ensures |eqB| >= |eqA| >= 2 ==> Correlation(eqA, eqB, sqrt) == Correlation(eqA, eqB[|eqB| - |eqA|..], sqrt)
  {
    hide Coefficient, ReturnAt;
    if |eqA| >= |eqB| >= 2 {
      ReturnsOfTail(eqA, |eqA| - |eqB|);
      LongerTail(Returns(eqA), Returns(eqB), sqrt);
    }
    if |eqB| >= |eqA| >= 2 {
      ReturnsOfTail(eqB, |eqB| - |eqA|);
      LongerTail(Returns(eqB), Returns(eqA), sqrt);
    }
  }

  lemma LongerTail(ra: seq<real>, rb: seq<real>, sqrt: real -> real)
    requires |ra| >= |rb|
    ensures OfReturns(ra, rb, sqrt) == OfReturns(Tail(ra, |rb|), rb, sqrt)
    ensures OfReturns(rb, ra, sqrt) == OfReturns(rb, Tail(ra, |rb|), sqrt)
  {
    hide Coefficient;
    assert Tail(rb, |rb|) == rb;
    assert Tail(Tail(ra, |rb|), |rb|) == Tail(ra, |rb|);
  }

  // ---------------------------------------------------------------- symmetry and scaling

  lemma {:induction false} DotCommutes(xs: seq<real>, ys: seq<real>)
    requires |xs| == |ys|
    ensures Dot(xs, ys) == Dot(ys, xs)
  {
    if |xs| > 0 {
      DotCommutes(xs[..|xs| - 1], ys[..|ys| - 1]);
    }
  }

  lemma CorrelationSymmetric(eqA: seq<real>, eqB: seq<real>, sqrt: real -> real)
    ensures Correlation(eqA, eqB, sqrt) == Correlation(eqB, eqA, sqrt)
  {
    var ra, rb := Returns(eqA), Returns(eqB);
    var n := Min(|ra|, |rb|);
    if n >= 2 {
      hide Dot, Sum, Covariance, Coefficient;
      CoefficientCommutes(Tail(ra, n), Tail(rb, n), sqrt);
    }
  }

  lemma CoefficientCommutes(xs: seq<real>, ys: seq<real>, sqrt: real -> real)
    requires |xs| == |ys|
    ensures Coefficient(xs, ys, sqrt) == Coefficient(ys, xs, sqrt)
  {
    assert Product(Covariance(xs, xs), Covariance(ys, ys)) == Product(Covariance(ys, ys), Covariance(xs, xs)) by {
      hide Dot, Sum, Covariance;
    }
    CovarianceCommutes(xs, ys);
    hide Dot, Sum, Covariance, Product;
  }

  lemma CovarianceCommutes(xs: seq<real>, ys: seq<real>)
    requires |xs| == |ys|
    ensures Covariance(xs, ys) == Covariance(ys, xs)
  {
    hide Dot, Sum;
    DotCommutes(xs, ys);
  }

  function Scale(k: real, equity: seq<real>): (scaled: seq<real>)
    ensures |scaled| == |equity|
  {
    seq(|equity|, i requires 0 <= i < |equity| => Product(k, equity[i]))
  }

  lemma ReturnScale(k: real, before: real, after: real)
    requires k > 0.0
    ensures ReturnAt(Product(k, before), Product(k, after)) == ReturnAt(before, after)
  {
    if before > 0.0 {
      assert k * before > 0.0;
      var r := (after - before) / before;
      assert r * before == after - before;
      assert r * (k * before) == k * after - k * before by { assert r * (k * before) == k * (r * before); }
    } else {
      assert k * before <= 0.0;
    }
  }

  /** Rescaling an account by a positive constant does not change any correlation with it. */
  lemma CorrelationScaleInvariant(k: real, eqA: seq<real>, eqB: seq<real>, sqrt: real -> real)
    requires k > 0.0
    ensures Correlation(Scale(k, eqA), eqB, sqrt) == Correlation(eqA, eqB, sqrt)
    ensures Correlation(eqB, Scale(k, eqA), sqrt) == Correlation(eqB, eqA, sqrt)
  {
    hide OfReturns, Returns, Scale;
    ReturnsScale(k, eqA);
  }

  lemma ReturnsScale(k: real, equity: seq<real>)
    requires k > 0.0
    ensures Returns(Scale(k, equity)) == Returns(equity)
  {
    hide ReturnAt, Product;
    forall i | 0 <= i < |Returns(equity)|
      ensures Returns(Scale(k, equity))[i] == Returns(equity)[i]
    {
      ReturnScale(k, equity[i], equity[i + 1]);
    }
  }

  /** A curve against a rescaled copy of itself has correlation exactly 1, except that a curve
      with too few or too uniform returns is reported as uncorrelated with itself. */
  lemma SelfCorrelation(k: real, equity: seq<real>, sqrt: real -> real)
    requires k > 0.0 && IsSqrt(sqrt)
    ensures Correlation(equity, Scale(k, equity), sqrt)
         == var r := Returns(equity);
            if |r| < 2 || Covariance(r, r) < DEGENERATE then 0.0 else 1.0
  {
    hide Dot, Sum, Covariance, Coefficient;
    CorrelationScaleInvariant(k, equity, equity, sqrt);
    var r := Returns(equity);
    if |r| >= 2 {
      assert Tail(r, |r|) == r;
      SelfCoefficient(r, sqrt);
    }
  }

  lemma SelfQuotient(v: real, d: real)
    requires d == v > 0.0
    ensures v / d == 1.0
  {}

  lemma SelfCoefficient(r: seq<real>, sqrt: real -> real)
    requires IsSqrt(sqrt)
    ensures Coefficient(r, r, sqrt) == if Covariance(r, r) < DEGENERATE then 0.0 else 1.0
  {
    hide Dot, Sum, Covariance;
    VarianceNonNegative(r);
    var v := Covariance(r, r);
    ProductNonNegative(v, v);
    SquareOrder(v, sqrt(v * v));
    SquareOrder(sqrt(v * v), v);
    if v >= DEGENERATE {
      SelfQuotient(v, sqrt(v * v));
    }
  }
}

/** The logarithmic bucket map of a DDSketch over exact reals.

    The base of the map is `b = 1 + gamma`. With offset 0 and multiplier 1/ln(b), `ceil(multiplier * ln v)` is
    the one integer `i` with `b^(i-1) < v <= b^i`, and `exp(i / multiplier)` is `b^i`.
 */
module LogMapping {

  const MIN_INT32: int := -0x8000_0000
  const MAX_INT32: int := 0x7fff_ffff

  lemma MulPositive(x: real, y: real)
    requires x > 0.0 && y > 0.0
    ensures x * y > 0.0
  {}

  /** `b` to the integer power `n`. */
  function Pow(b: real, n: int): (p: real)
    requires b > 0.0
    ensures p > 0.0
    decreases if n < 0 then -n else n
  {
    if n == 0 then 1.0
    else if n > 0 then
      var p := Pow(b, n - 1);
      MulPositive(b, p);
      b * p
    else
      Pow(b, n + 1) / b
  }

  /** Scaling by a positive factor keeps order both ways. */
  lemma ScaleLess(c: real, x: real, y: real, cx: real, cy: real)
    requires c > 0.0 && cx == c * x && cy == c * y
    ensures x < y <==> cx < cy
    ensures y <= x <==> cy <= cx
  {}

  lemma PowSucc(b: real, n: int)
    requires b > 0.0
    ensures Pow(b, n + 1) == b * Pow(b, n)
  {
    if n < 0 {
      var p := Pow(b, n + 1);
      assert Pow(b, n) == p / b;
    }
  }

  lemma PowGrows(b: real, n: int)
    requires b > 1.0
    ensures Pow(b, n) < Pow(b, n + 1)
  {
    PowSucc(b, n);
    var p := Pow(b, n);
    ScaleLess(p, 1.0, b, p, b * p);
  }

  /** Powers of a base above one grow strictly with the exponent. */
  lemma {:induction false} PowStrictlyMonotone(b: real, m: int, n: int)
    requires b > 1.0 && m < n
    ensures Pow(b, m) < Pow(b, n)
    decreases n - m
  {
    PowGrows(b, n - 1);
    if m < n - 1 {
      PowStrictlyMonotone(b, m, n - 1);
    }
  }

  lemma PowMonotone(b: real, m: int, n: int)
    requires b > 1.0 && m <= n
    ensures Pow(b, m) <= Pow(b, n)
  {
    if m < n {
      PowStrictlyMonotone(b, m, n);
    }
  }

  /** Scaling a value and a power by the base keeps their order. */
  lemma PowScales(b: real, n: int, v: real, w: real)
    requires b > 0.0 && w == b * v
    ensures Pow(b, n) < v <==> Pow(b, n + 1) < w
    ensures v <= Pow(b, n) <==> w <= Pow(b, n + 1)
  {
    PowSucc(b, n);
    ScaleLess(b, Pow(b, n), v, Pow(b, n + 1), w);
  }

  /** The bucket of `v`: the half-open interval of consecutive powers that holds it. */
  ghost predicate InBucket(b: real, v: real, i: int)
    requires b > 1.0
  {
    Pow(b, i - 1) < v <= Pow(b, i)
  }

  /** Zero inside bucket 0, and otherwise a bound on the steps by a factor `b` left to reach it. */
  ghost function Distance(b: real, v: real): (d: nat)
    requires b > 1.0 && v > 0.0
  {
    var k := b / (b - 1.0);
    if v > 1.0 then
      MulPositive(v, k);
      (v * k).Floor + 1
    else if b * v <= 1.0 then
      MulPositive(1.0 / v, k);
      (1.0 / v * k).Floor + 1
    else 0
  }

  /** Dividing by the base shrinks a value of at least one by a fixed amount (Bernoulli's argument). */
  lemma DivisionShrinks(b: real, w: real)
    requires b > 1.0 && w >= 1.0
    ensures w / b > 0.0
    ensures w * (b / (b - 1.0)) >= w / b * (b / (b - 1.0)) + 1.0
  {
    var g := b - 1.0;
    var k := b / g;
    var u := w / b;
    assert w == u * b;
    assert k * g == b;
    calc {
      w * k;
      (u * b) * k;
      u * k + (u * k) * g;
      { assert (u * k) * g == u * (k * g); }
      u * k + w;
    }
  }

  lemma StepDown(b: real, v: real)
    requires b > 1.0 && v > 1.0
    ensures v / b > 0.0 && b * (v / b) == v
    ensures Distance(b, v / b) < Distance(b, v)
  {
    DivisionShrinks(b, v);
  }

  lemma StepUp(b: real, v: real)
    requires b > 1.0 && v > 0.0 && b * v <= 1.0
    ensures b * v > 0.0
    ensures Distance(b, b * v) < Distance(b, v)
  {
    MulPositive(b, v);
    var w := 1.0 / v;
    assert w * v == 1.0;
    ScaleLess(v, 1.0, b, v, b * v);
    assert w >= 1.0;
    DivisionShrinks(b, w);
    assert w / b == 1.0 / (b * v);
  }

  /** Multiplying a value by the base moves it up exactly one bucket. */
  lemma BucketScales(b: real, v: real, w: real, i: int)
    requires b > 1.0 && w == b * v
    ensures InBucket(b, v, i) <==> InBucket(b, w, i + 1)
  {
    PowScales(b, i - 1, v, w);
    PowScales(b, i, v, w);
  }

  lemma BucketZero(b: real, v: real)
    requires b > 1.0 && v <= 1.0 < b * v
    ensures InBucket(b, v, 0)
  {
    PowScales(b, -1, v, b * v);
  }

  /** ddsketch.go valueToIndex, by exact steps instead of a floating-point logarithm. */
  function ValueToIndex(b: real, v: real): (i: int)
    requires b > 1.0
    decreases if v > 0.0 then Distance(b, v) else 0
  {
    if v <= 0.0 then MIN_INT32
    else if v > 1.0 then
      StepDown(b, v);
      ValueToIndex(b, v / b) + 1
    else if b * v <= 1.0 then
      StepUp(b, v);
      ValueToIndex(b, b * v) - 1
    else 0
  }

  /** Every positive value lies in the bucket its index names. */
  lemma {:induction false} ValueInBucket(b: real, v: real)
    requires b > 1.0 && v > 0.0
    ensures InBucket(b, v, ValueToIndex(b, v))
    decreases Distance(b, v)
  {
    if v > 1.0 {
      StepDown(b, v);
      ValueInBucket(b, v / b);
      BucketScales(b, v / b, v, ValueToIndex(b, v / b));
    } else if b * v <= 1.0 {
      StepUp(b, v);
      ValueInBucket(b, b * v);
      BucketScales(b, v, b * v, ValueToIndex(b, b * v) - 1);
    } else {
      BucketZero(b, v);
    }
  }

  /** Larger values never lie in lower buckets. */
  lemma IndexMonotone(b: real, v: real, w: real, i: int, j: int)
    requires b > 1.0 && v <= w
    requires InBucket(b, v, i) && InBucket(b, w, j)
    ensures i <= j
  {
    if j < i {
      PowMonotone(b, j, i - 1);
    }
  }

  /** A value lies in one bucket only. */
  lemma IndexUnique(b: real, v: real, i: int)
    requires b > 1.0 && v > 0.0 && InBucket(b, v, i)
    ensures ValueToIndex(b, v) == i
  {
    ValueInBucket(b, v);
    IndexMonotone(b, v, v, i, ValueToIndex(b, v));
    IndexMonotone(b, v, v, ValueToIndex(b, v), i);
  }

  /** ddsketch.go indexToValue. */
  function IndexToValue(b: real, i: int): (v: real)
    requires b > 1.0
    ensures v > 0.0
  {
    Pow(b, i)
  }

  /** `e` overestimates `x` by less than a factor `b`. */
  ghost predicate WithinFactor(x: real, e: real, b: real) {
    x <= e < b * x
  }

  /** The representative of a bucket is its upper end: never below a value of the bucket, and less than a
      factor `b` above it. */
  lemma RelativeError(b: real, v: real)
    requires b > 1.0 && v > 0.0
    ensures WithinFactor(v, IndexToValue(b, ValueToIndex(b, v)), b)
  {
    ValueInBucket(b, v);
    PowScales(b, ValueToIndex(b, v) - 1, v, b * v);
  }

  /** indexToValue and valueToIndex are inverse on indices. */
  lemma IndexRoundTrip(b: real, i: int)
    requires b > 1.0
    ensures ValueToIndex(b, IndexToValue(b, i)) == i
  {
    PowGrows(b, i - 1);
    IndexUnique(b, IndexToValue(b, i), i);
  }

  ghost predicate Times(z: real, x: real, y: real) {
    z == x * y
  }

  lemma TimesStep(b: real, z: real, x: real, y: real, bz: real, bx: real)
    requires Times(z, x, y) && bz == b * z && bx == b * x
    ensures Times(bz, bx, y)
  {
    assert b * (x * y) == (b * x) * y;
  }

  lemma {:induction false} PowAdd(b: real, m: nat, n: nat)
    requires b > 0.0
    ensures Times(Pow(b, m + n), Pow(b, m), Pow(b, n))
  {
    if m == 0 {
    } else {
      hide Pow, Times;
      PowAdd(b, m - 1, n);
      PowSucc(b, m - 1 + n);
      PowSucc(b, m - 1);
      TimesStep(b, Pow(b, m - 1 + n), Pow(b, m - 1), Pow(b, n), Pow(b, m + n), Pow(b, m));
    }
  }

  ghost predicate Inverse(x: real, y: real) {
    x * y == 1.0
  }

  lemma InverseStep(b: real, p: real, q: real, bp: real, q': real)
    requires bp == b * p && q == b * q' && Inverse(bp, q')
    ensures Inverse(p, q)
  {
    assert p * (b * q') == (b * p) * q';
  }

  lemma {:induction false} PowNegative(b: real, n: int)
    requires b > 0.0 && n >= 0
    ensures Inverse(Pow(b, -n), Pow(b, n))
  {
    if n == 0 {
    } else {
      hide Pow, Inverse;
      PowNegative(b, n - 1);
      PowSucc(b, -n);
      PowSucc(b, n - 1);
      InverseStep(b, Pow(b, -n), Pow(b, n), Pow(b, -n + 1), Pow(b, n - 1));
    }
  }

  lemma BernoulliStep(g: real, m: real, p: real, b: real)
    requires g > 0.0 && m >= 0.0 && b == 1.0 + g && p >= 1.0 + g * m
    ensures b * p >= 1.0 + g * (m + 1.0)
  {
    assert g * m >= 0.0;
    ScaleLess(g, p, 1.0, g * p, g);
    assert b * p == p + g * p;
  }

  /** Bernoulli's inequality. */
  lemma {:induction false} Bernoulli(b: real, n: nat)
    requires b > 1.0
    ensures Pow(b, n) >= 1.0 + (b - 1.0) * n as real
  {
    if n == 0 {
    } else {
      Bernoulli(b, n - 1);
      BernoulliStep(b - 1.0, (n - 1) as real, Pow(b, n - 1), b);
    }
  }

  lemma Reciprocal(x: real, y: real, limit: real, v: real)
    requires Inverse(x, y) && y >= limit > 0.0 && x > 0.0 && v * limit >= 1.0
    ensures x <= v
  {
    assert x * limit <= 1.0;
    assert x * limit <= v * limit;
  }

  /** Values between 1/limit and limit have indices between -n and n as soon as b^n reaches the limit. */
  lemma IndexRange(b: real, n: int, limit: real, v: real)
    requires b > 1.0 && n >= 0 && v > 0.0 && limit > 0.0 && Pow(b, n) >= limit && v <= limit && v * limit >= 1.0
    ensures -n <= ValueToIndex(b, v) <= n
  {
    hide Pow, ValueToIndex, Inverse;
    var i := ValueToIndex(b, v);
    ValueInBucket(b, v);
    if i > n {
      PowMonotone(b, n, i - 1);
    }
    if i < -n {
      PowStrictlyMonotone(b, i, -n);
      PowNegative(b, n);
      Reciprocal(Pow(b, -n), Pow(b, n), limit, v);
    }
  }
}

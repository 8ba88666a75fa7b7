/** pkg/metrics/load_windows.go: the fixed-point load average in 32-bit arithmetic. */
module LoadAverage {

  const U32: int := 0x1_0000_0000
  const FIXED_1: int := 2048
  const EXP_1: int := 1884
  const EXP_5: int := 2014
  const EXP_15: int := 2037

  /** Multiplication and addition of uint32. */
  function Mul32(x: nat, y: nat): nat {
    var product := x * y;
    product % U32
  }

  function Add32(x: nat, y: nat): nat { (x + y) % U32 }

  lemma Mul32Exact(x: nat, y: nat, product: nat)
    requires product == x * y < U32
    ensures Mul32(x, y) == product
  {}

  /** calcLoad. */
  function CalcLoad(load: nat, exp: nat, n: nat): nat
    requires exp <= FIXED_1
  {
    var scaled := if n > 0 then Mul32(n, FIXED_1) else 0;
    Add32(Mul32(load, exp), Mul32(scaled, FIXED_1 - exp)) / FIXED_1
  }

  /** The weighted mean of the load and `n`, rounded down, without a width. */
  function Mean(load: int, exp: int, n: int): int {
    (load * exp + FIXED_1 * n * (FIXED_1 - exp)) / FIXED_1
  }

  lemma MulMonotone(x: nat, y: nat, z: nat)
    requires x <= y
    ensures 0 <= x * z <= y * z
  {}

  lemma WeightsBounded(load: nat, exp: nat, n: nat, limit: nat)
    requires exp <= FIXED_1 && load <= FIXED_1 * limit && n <= limit
    ensures 0 <= load * exp <= FIXED_1 * limit * exp
    ensures 0 <= FIXED_1 * n * (FIXED_1 - exp) <= FIXED_1 * limit * (FIXED_1 - exp)
    ensures load * exp + FIXED_1 * n * (FIXED_1 - exp) <= FIXED_1 * limit * FIXED_1
  {
    MulMonotone(load, FIXED_1 * limit, exp);
    MulMonotone(FIXED_1 * n, FIXED_1 * limit, FIXED_1 - exp);
    assert FIXED_1 * limit * exp + FIXED_1 * limit * (FIXED_1 - exp) == FIXED_1 * limit * FIXED_1;
  }

  lemma AddMultiple(a: int, k: int)
    ensures (a + k * U32) % U32 == a % U32
  {}

  /** Reducing a factor to 32 bits does not change the low 32 bits of a product. */
  lemma ReducedFactor(x: nat, z: nat)
    ensures Mul32(x % U32, z) == Mul32(x, z)
  {
    var q, r := x / U32, x % U32;
    assert x * z == r * z + q * z * U32;
    AddMultiple(r * z, q * z);
  }

  lemma ReducedTerms(x: nat, y: nat)
    ensures Add32(x % U32, y % U32) == (x + y) % U32
  {}

  lemma ReducedScale(n: nat)
    ensures (if n > 0 then Mul32(n, FIXED_1) else 0) == FIXED_1 * n % U32
  {}

  lemma Mul32Reduces(x: nat, y: nat, product: nat)
    requires product == x * y
    ensures Mul32(x, y) == product % U32
  {}

  /** calcLoad keeps the low 32 bits of the weighted sum, wherever the overflow happens. */
  lemma CalcLoadWraps(load: nat, exp: nat, n: nat, x: nat, y: nat)
    requires exp <= FIXED_1 && x == load * exp && y == FIXED_1 * n * (FIXED_1 - exp)
    ensures CalcLoad(load, exp, n) == (x + y) % U32 / FIXED_1
  {
    hide Add32, Mul32;
    ReducedScale(n);
    ReducedFactor(FIXED_1 * n, FIXED_1 - exp);
    Mul32Reduces(load, exp, x);
    Mul32Reduces(FIXED_1 * n, FIXED_1 - exp, y);
    ReducedTerms(x, y);
  }

  /** For all inputs, calcLoad is the weighted mean if and only if the weighted sum fits in 32 bits. */
  lemma ExactIff(load: nat, exp: nat, n: nat)
    requires exp <= FIXED_1
    ensures CalcLoad(load, exp, n) == Mean(load, exp, n) <==>
            load * exp + FIXED_1 * n * (FIXED_1 - exp) < U32
  {
    hide CalcLoad;
    var x, y := load * exp, FIXED_1 * n * (FIXED_1 - exp);
    MulMonotone(0, load, exp);
    MulMonotone(0, FIXED_1 * n, FIXED_1 - exp);
    CalcLoadWraps(load, exp, n, x, y);
  }

  /** A load of 1024 with 1024 queued wraps around to 0, for every weight. But no run from zero gets to that load
      without a longer queue: see `SafeIff`. */
  lemma FullLoadWraps(exp: nat)
    requires exp <= FIXED_1
    ensures CalcLoad(FIXED_1 * 1024, exp, 1024) == 0
  {
    hide CalcLoad;
    CalcLoadWraps(FIXED_1 * 1024, exp, 1024, FIXED_1 * 1024 * exp, FIXED_1 * 1024 * (FIXED_1 - exp));
  }

  /** The longest queue a weight is safe with. Without any weight on the old load, 1024 queued processes overflow. */
  function SafeLimit(exp: nat): nat { if exp == 0 then 1023 else 1024 }

  /** A load within `limit` processes, and below 1024. */
  ghost predicate Fits(load: int, limit: nat) {
    0 <= load <= FIXED_1 * limit && load < FIXED_1 * 1024
  }

  lemma Narrow(load: nat, exp: nat, n: nat, limit: nat, x: nat, y: nat)
    requires exp <= FIXED_1 && limit <= SafeLimit(exp) && Fits(load, limit) && n <= limit
    requires x == load * exp && y == FIXED_1 * n * (FIXED_1 - exp)
    ensures x + y <= FIXED_1 * limit * FIXED_1 && x + y < U32
  {
    WeightsBounded(load, exp, n, limit);
    if limit == 1024 {
      MulMonotone(load, FIXED_1 * 1024 - 1, exp);
    }
  }

  lemma Fraction(sum: nat, limit: nat)
    requires sum <= FIXED_1 * limit * FIXED_1 && sum < U32
    ensures 0 <= sum / FIXED_1 <= FIXED_1 * limit && sum / FIXED_1 < FIXED_1 * 1024
  {}

  /** From a load below 1024 and with at most 1024 queued, nothing overflows, and the load stays within the limit and
      below 1024, because the mean is rounded down. */
  lemma NoOverflow(load: nat, exp: nat, n: nat, limit: nat)
    requires exp <= FIXED_1 && limit <= SafeLimit(exp) && Fits(load, limit) && n <= limit
    ensures CalcLoad(load, exp, n) == Mean(load, exp, n) && Fits(Mean(load, exp, n), limit)
  {
    hide CalcLoad;
    var x, y := load * exp, FIXED_1 * n * (FIXED_1 - exp);
    MulMonotone(0, load, exp);
    MulMonotone(0, FIXED_1 * n, FIXED_1 - exp);
    Narrow(load, exp, n, limit, x, y);
    ExactIff(load, exp, n);
    Fraction(x + y, limit);
  }

  /** The load after a series of samples. */
  function LoadAfter(exp: nat, ns: seq<nat>): nat
    requires exp <= FIXED_1
  {
    if ns == [] then 0 else CalcLoad(LoadAfter(exp, ns[..|ns| - 1]), exp, ns[|ns| - 1])
  }

  ghost predicate AtMost(ns: seq<nat>, limit: nat) {
    forall i :: 0 <= i < |ns| ==> ns[i] <= limit
  }

  /** Every step of a run from zero is the exact mean, so none overflows. */
  ghost predicate RunExact(exp: nat, ns: seq<nat>)
    requires exp <= FIXED_1
  {
    ns != [] ==>
      var before, n := ns[..|ns| - 1], ns[|ns| - 1];
      RunExact(exp, before) && LoadAfter(exp, ns) == Mean(LoadAfter(exp, before), exp, n)
  }

  /** No run from zero over queue lengths up to 1024 ever overflows: each step is the exact mean, and the load never
      exceeds the highest queue length. */
  lemma {:induction false} RunNeverOverflows(exp: nat, ns: seq<nat>, limit: nat)
    requires exp <= FIXED_1 && limit <= SafeLimit(exp) && AtMost(ns, limit)
    ensures RunExact(exp, ns) && Fits(LoadAfter(exp, ns), limit)
  {
    hide CalcLoad, Mean;
    if ns == [] {
    } else {
      RunNeverOverflows(exp, ns[..|ns| - 1], limit);
      NoOverflow(LoadAfter(exp, ns[..|ns| - 1]), exp, ns[|ns| - 1], limit);
    }
  }

  lemma ShiftDivision(a: int, b: int)
    ensures (a * FIXED_1 + b) / FIXED_1 == a + b / FIXED_1
  {}

  /** One step scales the distance to the target by exp/2048, rounded down. */
  lemma MeanOfGap(load: int, exp: int, n: int)
    ensures Mean(load, exp, n) == FIXED_1 * n + (load - FIXED_1 * n) * exp / FIXED_1
  {
    var d := load - FIXED_1 * n;
    assert load * exp + FIXED_1 * n * (FIXED_1 - exp) == FIXED_1 * n * FIXED_1 + d * exp;
    ShiftDivision(FIXED_1 * n, d * exp);
  }

  lemma SignOfProduct(d: int, z: int)
    requires z > 0
    ensures d > 0 ==> d * z > 0
    ensures d <= 0 ==> d * z <= 0
  {}

  lemma Quotient(d: int, x: int, p: int)
    requires x == d * FIXED_1 - p
    requires if d > 0 then x > 0 && p > 0 else x <= 0 && p <= 0
    ensures d > 0 ==> 0 <= x / FIXED_1 < d
    ensures d <= 0 ==> d <= x / FIXED_1 <= 0
    ensures d <= 0 ==> (x / FIXED_1 == d <==> -p < FIXED_1)
  {}

  /** From above, the distance shrinks and stays non-negative; from below it shrinks until rounding holds it. */
  lemma GapShrinks(d: int, exp: int)
    requires 0 < exp < FIXED_1
    ensures d > 0 ==> 0 <= d * exp / FIXED_1 < d
    ensures d <= 0 ==> d <= d * exp / FIXED_1 <= 0
    ensures d <= 0 ==> (d * exp / FIXED_1 == d <==> -d * (FIXED_1 - exp) < FIXED_1)
  {
    var x, p := d * exp, d * (FIXED_1 - exp);
    assert x == d * FIXED_1 - p;
    SignOfProduct(d, exp);
    SignOfProduct(d, FIXED_1 - exp);
    assert -d * (FIXED_1 - exp) == -p;
    Quotient(d, x, p);
  }

  /** The loads at rest under a constant queue length: the target itself, or just below it. */
  ghost predicate AtRest(load: int, exp: int, n: int) {
    var gap := FIXED_1 * n - load;
    0 <= gap && gap * (FIXED_1 - exp) < FIXED_1
  }

  /** A load does not change exactly when it is at rest. */
  lemma RestIsFixed(load: int, exp: int, n: int)
    requires 0 < exp < FIXED_1
    ensures Mean(load, exp, n) == load <==> AtRest(load, exp, n)
  {
    MeanOfGap(load, exp, n);
    GapShrinks(load - FIXED_1 * n, exp);
  }

  function Repeat(load: int, exp: int, n: int, k: nat): int
    decreases k
  {
    if k == 0 then load else Repeat(Mean(load, exp, n), exp, n, k - 1)
  }

  /** Under a constant queue length the load comes to rest after finitely many steps: exactly on the target from
      above, and from below with a gap g such that g * (2048 - exp) < 2048. */
  lemma {:induction false} Converges(load: int, exp: int, n: int) returns (k: nat)
    requires 0 < exp < FIXED_1
    ensures AtRest(Repeat(load, exp, n, k), exp, n)
    ensures load >= FIXED_1 * n ==> Repeat(load, exp, n, k) == FIXED_1 * n
    ensures load < FIXED_1 * n ==> load <= Repeat(load, exp, n, k) <= FIXED_1 * n
    decreases if load >= FIXED_1 * n then load - FIXED_1 * n else FIXED_1 * n - load
  {
    var next := Mean(load, exp, n);
    MeanOfGap(load, exp, n);
    GapShrinks(load - FIXED_1 * n, exp);
    RestIsFixed(load, exp, n);
    if next == load {
      k := 0;
    } else {
      var j := Converges(next, exp, n);
      k := j + 1;
    }
  }

  /** At rest the load stays put for ever. */
  lemma {:induction false} RestsForever(load: int, exp: int, n: int, k: nat)
    requires 0 < exp < FIXED_1 && AtRest(load, exp, n)
    ensures Repeat(load, exp, n, k) == load
  {
    RestIsFixed(load, exp, n);
    if k == 0 {
    } else {
      RestsForever(load, exp, n, k - 1);
    }
  }

  function Constant(n: nat, k: nat): seq<nat> { seq(k, _ => n) }

  lemma ConstantSnoc(exp: nat, n: nat, k: nat)
    requires exp <= FIXED_1
    ensures var ns := Constant(n, k + 1);
            && ns[..|ns| - 1] == Constant(n, k)
            && LoadAfter(exp, ns) == CalcLoad(LoadAfter(exp, Constant(n, k)), exp, n)
            && (RunExact(exp, ns) <==>
                RunExact(exp, Constant(n, k)) && LoadAfter(exp, ns) == Mean(LoadAfter(exp, Constant(n, k)), exp, n))
  {
    hide CalcLoad, Mean;
    assert Constant(n, k + 1)[..k] == Constant(n, k);
  }

  lemma {:induction false} RepeatSnoc(load: int, exp: int, n: int, k: nat)
    ensures Repeat(load, exp, n, k + 1) == Mean(Repeat(load, exp, n, k), exp, n)
    decreases k
  {
    hide Mean;
    if k == 0 {
      assert Repeat(load, exp, n, 1) == Repeat(Mean(load, exp, n), exp, n, 0);
    } else {
      RepeatSnoc(Mean(load, exp, n), exp, n, k - 1);
    }
  }

  /** As long as a run under a constant queue length is exact, it follows the mean. */
  lemma {:induction false} ExactRunFollows(exp: nat, n: nat, k: nat)
    requires exp <= FIXED_1 && RunExact(exp, Constant(n, k))
    ensures LoadAfter(exp, Constant(n, k)) == Repeat(0, exp, n, k)
  {
    hide CalcLoad, Mean;
    if k == 0 {
    } else {
      ConstantSnoc(exp, n, k - 1);
      ExactRunFollows(exp, n, k - 1);
      RepeatSnoc(0, exp, n, k - 1);
    }
  }

  /** At rest under a queue of more than 1024, the weighted sum needs more than 32 bits. */
  lemma RestOverflows(load: nat, exp: nat, n: nat)
    requires 0 < exp < FIXED_1 && n > 1024 && AtRest(load, exp, n)
    ensures CalcLoad(load, exp, n) != Mean(load, exp, n)
  {
    hide CalcLoad, Mean;
    var gap := FIXED_1 * n - load;
    MulMonotone(1, FIXED_1 - exp, gap);
    assert gap <= gap * (FIXED_1 - exp);
    MulMonotone(gap, FIXED_1, exp);
    assert load * exp + FIXED_1 * n * (FIXED_1 - exp) == FIXED_1 * n * FIXED_1 - gap * exp;
    ExactIff(load, exp, n);
  }

  /** A queue of constantly more than 1024, such as 1025, overflows after finitely many steps. */
  lemma LongQueueOverflows(exp: nat, n: nat) returns (k: nat)
    requires 0 < exp < FIXED_1 && n > 1024
    ensures !RunExact(exp, Constant(n, k))
  {
    hide CalcLoad, Mean;
    var j := Converges(0, exp, n);
    k := j + 1;
    ConstantSnoc(exp, n, j);
    if RunExact(exp, Constant(n, j)) {
      ExactRunFollows(exp, n, j);
      RestOverflows(LoadAfter(exp, Constant(n, j)), exp, n);
    }
  }

  /** The sharp limit, for the three weights and every other one between 0 and 1: all runs from zero over queue lengths
      up to `limit` are free of overflow if and only if `limit` is at most 1024. */
  lemma SafeIff(exp: nat, limit: nat)
    requires 0 < exp < FIXED_1
    ensures (forall ns: seq<nat> | AtMost(ns, limit) :: RunExact(exp, ns)) <==> limit <= 1024
  {
    if limit <= 1024 {
      forall ns: seq<nat> | AtMost(ns, limit) ensures RunExact(exp, ns) {
        RunNeverOverflows(exp, ns, limit);
      }
    } else {
      var k := LongQueueOverflows(exp, 1025);
      assert AtMost(Constant(1025, k), limit);
    }
  }

  function RepeatLoad(load: nat, exp: nat, n: nat, k: nat): nat
    requires exp <= FIXED_1
    decreases k
  {
    if k == 0 then load else RepeatLoad(CalcLoad(load, exp, n), exp, n, k - 1)
  }

  lemma {:induction false} RepeatExact(load: nat, exp: nat, n: nat, limit: nat, k: nat)
    requires exp <= FIXED_1 && limit <= SafeLimit(exp) && Fits(load, limit) && n <= limit
    ensures RepeatLoad(load, exp, n, k) == Repeat(load, exp, n, k) && Fits(RepeatLoad(load, exp, n, k), limit)
    decreases k
  {
    hide CalcLoad, Mean;
    NoOverflow(load, exp, n, limit);
    if k == 0 {
    } else {
      RepeatExact(CalcLoad(load, exp, n), exp, n, limit, k - 1);
    }
  }

  /** calcLoad itself converges in this way when the load is below 1024 and the queue length at most that, and then
      stays. */
  lemma LoadConverges(load: nat, exp: nat, n: nat, limit: nat) returns (k: nat)
    requires 0 < exp < FIXED_1 && limit <= 1024 && Fits(load, limit) && n <= limit
    ensures var rest := RepeatLoad(load, exp, n, k);
            && AtRest(rest, exp, n) && (load >= FIXED_1 * n ==> rest == FIXED_1 * n)
            && Fits(rest, limit) && CalcLoad(rest, exp, n) == rest
  {
    hide CalcLoad, Mean;
    k := Converges(load, exp, n);
    RepeatExact(load, exp, n, limit, k);
    var rest := RepeatLoad(load, exp, n, k);
    RestIsFixed(rest, exp, n);
    NoOverflow(rest, exp, n, limit);
  }

  // ----- the weights -----

  /** What is left of a load after `k` idle samples, without rounding: its weight to the power of `k`. */
  ghost function Left(exp: int, k: nat): real {
    if k == 0 then 1.0 else exp as real / 2048.0 * Left(exp, k - 1)
  }

  ghost predicate Product(z: real, x: real, y: real) { z == x * y }

  lemma ProductStep(w: real, z: real, x: real, y: real, wz: real, wx: real)
    requires Product(z, x, y) && wz == w * z && wx == w * x
    ensures Product(wz, wx, y)
  {
    assert w * (x * y) == (w * x) * y;
  }

  lemma {:induction false} LeftAdd(exp: int, k: nat, j: nat)
    ensures Product(Left(exp, k + j), Left(exp, k), Left(exp, j))
  {
    if k == 0 {
    } else {
      hide Product;
      LeftAdd(exp, k - 1, j);
      ProductStep(exp as real / 2048.0, Left(exp, k - 1 + j), Left(exp, k - 1), Left(exp, j), Left(exp, k + j),
                  Left(exp, k));
    }
  }

  lemma ProductBetween(z: real, x: real, y: real, lo: real, hi: real, l: real, h: real)
    requires Product(z, x, y) && 0.0 <= lo <= x <= hi && 0.0 <= l <= y <= h
    ensures lo * l <= z <= hi * h
  {
    assert lo * l <= x * l && x * l <= x * y;
    assert x * y <= hi * y && hi * y <= hi * h;
  }

  /** Bounds on two parts give bounds on the whole. */
  lemma LeftBetween(exp: int, k: nat, j: nat, lo: real, hi: real, l: real, h: real)
    requires 0.0 <= lo <= Left(exp, k) <= hi && 0.0 <= l <= Left(exp, j) <= h
    ensures lo * l <= Left(exp, k + j) <= hi * h
  {
    LeftAdd(exp, k, j);
    ProductBetween(Left(exp, k + j), Left(exp, k), Left(exp, j), lo, hi, l, h);
  }

  lemma LeftThree(exp: int)
    ensures Left(exp, 3) == exp as real / 2048.0 * (exp as real / 2048.0 * (exp as real / 2048.0))
  {
    assert Left(exp, 1) == exp as real / 2048.0;
    assert Left(exp, 2) == exp as real / 2048.0 * Left(exp, 1);
    assert Left(exp, 3) == exp as real / 2048.0 * Left(exp, 2);
  }

  lemma LeftOne()
    ensures 0.366 <= Left(EXP_1, 12) <= 0.368
  {
    hide Left;
    LeftThree(EXP_1);
    assert 0.7784 <= Left(EXP_1, 3) <= 0.7786;
    LeftBetween(EXP_1, 3, 3, 0.7784, 0.7786, 0.7784, 0.7786);
    assert 0.6059 <= Left(EXP_1, 6) <= 0.6063;
    LeftBetween(EXP_1, 6, 6, 0.6059, 0.6063, 0.6059, 0.6063);
  }

  lemma LeftFive()
    ensures 0.36 <= Left(EXP_5, 60) <= 0.37
  {
    hide Left;
    LeftThree(EXP_5);
    assert 0.95101 <= Left(EXP_5, 3) <= 0.95103;
    LeftBetween(EXP_5, 3, 3, 0.95101, 0.95103, 0.95101, 0.95103);
    assert 0.9044 <= Left(EXP_5, 6) <= 0.9045;
    LeftBetween(EXP_5, 6, 6, 0.9044, 0.9045, 0.9044, 0.9045);
    assert 0.8179 <= Left(EXP_5, 12) <= 0.8182;
    LeftBetween(EXP_5, 12, 12, 0.8179, 0.8182, 0.8179, 0.8182);
    assert 0.6689 <= Left(EXP_5, 24) <= 0.6695;
    LeftBetween(EXP_5, 24, 24, 0.6689, 0.6695, 0.6689, 0.6695);
    assert 0.4474 <= Left(EXP_5, 48) <= 0.4483;
    LeftBetween(EXP_5, 48, 12, 0.4474, 0.4483, 0.8179, 0.8182);
  }

  lemma LeftFifteen()
    ensures 0.37 <= Left(EXP_15, 180) <= 0.39
  {
    hide Left;
    LeftThree(EXP_15);
    assert 0.983973 <= Left(EXP_15, 3) <= 0.983974;
    LeftBetween(EXP_15, 3, 3, 0.983973, 0.983974, 0.983973, 0.983974);
    assert 0.96820 <= Left(EXP_15, 6) <= 0.96821;
    LeftBetween(EXP_15, 6, 6, 0.96820, 0.96821, 0.96820, 0.96821);
    assert 0.93741 <= Left(EXP_15, 12) <= 0.93744;
    LeftBetween(EXP_15, 12, 12, 0.93741, 0.93744, 0.93741, 0.93744);
    assert 0.8787 <= Left(EXP_15, 24) <= 0.8788;
    LeftBetween(EXP_15, 24, 24, 0.8787, 0.8788, 0.8787, 0.8788);
    assert 0.7721 <= Left(EXP_15, 48) <= 0.7723;
    LeftBetween(EXP_15, 48, 48, 0.7721, 0.7723, 0.7721, 0.7723);
    assert 0.5961 <= Left(EXP_15, 96) <= 0.5965;
    LeftBetween(EXP_15, 96, 48, 0.5961, 0.5965, 0.7721, 0.7723);
    assert 0.4602 <= Left(EXP_15, 144) <= 0.4607;
    LeftBetween(EXP_15, 144, 24, 0.4602, 0.4607, 0.8787, 0.8788);
    assert 0.4043 <= Left(EXP_15, 168) <= 0.4049;
    LeftBetween(EXP_15, 168, 12, 0.4043, 0.4049, 0.93741, 0.93744);
  }

  lemma {:induction false} LeftInUnit(exp: int, k: nat)
    requires 0 <= exp <= FIXED_1
    ensures 0.0 <= Left(exp, k) <= 1.0
  {
    if k == 0 {
    } else {
      LeftInUnit(exp, k - 1);
      LeftBetween(exp, 1, k - 1, 0.0, 1.0, 0.0, 1.0);
    }
  }

  lemma IdleMean(load: nat, exp: nat)
    requires exp <= FIXED_1
    ensures var left := exp as real / 2048.0 * load as real; left - 1.0 <= Mean(load, exp, 0) as real <= left
    ensures 0 <= Mean(load, exp, 0)
  {
    MulMonotone(0, load, exp);
    var x := load * exp;
    assert Mean(load, exp, 0) == x / FIXED_1;
    assert x as real == load as real * exp as real;
    assert exp as real / 2048.0 * load as real == x as real / 2048.0;
  }

  lemma IdleStep(d: real, w: real, e: real, load: real, m: real, rest: real, lost: real)
    requires 0.0 <= d <= 1.0 && e == w * d && w * load - 1.0 <= m <= w * load
    requires d * m - lost <= rest <= d * m
    ensures e * load - (lost + 1.0) <= rest <= e * load
  {
    assert d * m <= d * (w * load) && d * (w * load - 1.0) <= d * m;
    assert d * (w * load) == w * d * load;
  }

  /** With nothing queued, a load falls to the power of its weight, up to one unit for the rounding of each sample. */
  lemma {:induction false} IdleDecays(load: nat, exp: nat, k: nat)
    requires exp <= FIXED_1
    ensures Left(exp, k) * load as real - k as real <= Repeat(load, exp, 0, k) as real <= Left(exp, k) * load as real
    decreases k
  {
    hide Mean;
    if k == 0 {
    } else {
      var m, d, w, e := Mean(load, exp, 0), Left(exp, k - 1), exp as real / 2048.0, Left(exp, k);
      assert e == w * d && Repeat(load, exp, 0, k) == Repeat(m, exp, 0, k - 1);
      hide Left, Repeat;
      IdleMean(load, exp);
      IdleDecays(m, exp, k - 1);
      LeftInUnit(exp, k - 1);
      IdleStep(d, w, e, load as real, m as real, Repeat(m, exp, 0, k - 1) as real, (k - 1) as real);
    }
  }

  /** About a third of a load is left: between 36 and 39 percent, up to one unit for each of `k` samples. */
  ghost predicate AThirdLeft(before: int, after: int, k: nat) {
    0.36 * before as real - k as real <= after as real <= 0.39 * before as real
  }

  lemma ThirdOf(share: real, before: nat, after: int, k: nat)
    requires 0.36 <= share <= 0.39
    requires share * before as real - k as real <= after as real <= share * before as real
    ensures AThirdLeft(before, after, k)
  {
    assert 0.36 * before as real <= share * before as real <= 0.39 * before as real;
  }

  /** The weights are those of one, five and fifteen minutes at a sample every five seconds: after that many idle
      minutes about a third of the load is left, as of an average over that time. */
  lemma WeightsAreMinutes(load: nat)
    ensures AThirdLeft(load, Repeat(load, EXP_1, 0, 12 * 1), 12)
    ensures AThirdLeft(load, Repeat(load, EXP_5, 0, 12 * 5), 60)
    ensures AThirdLeft(load, Repeat(load, EXP_15, 0, 12 * 15), 180)
  {
    hide Left, Repeat, AThirdLeft;
    LeftOne();
    LeftFive();
    LeftFifteen();
    IdleDecays(load, EXP_1, 12);
    IdleDecays(load, EXP_5, 60);
    IdleDecays(load, EXP_15, 180);
    ThirdOf(Left(EXP_1, 12), load, Repeat(load, EXP_1, 0, 12), 12);
    ThirdOf(Left(EXP_5, 60), load, Repeat(load, EXP_5, 0, 60), 60);
    ThirdOf(Left(EXP_15, 180), load, Repeat(load, EXP_15, 0, 180), 180);
  }

  /** The three package-level loads. */
  class Loads {
    var one: nat
    var five: nat
    var fifteen: nat

    /** All loads lie within `limit` processes, and below 1024. */
    ghost predicate Within(limit: nat)
      reads this
    {
      Fits(one, limit) && Fits(five, limit) && Fits(fifteen, limit)
    }

    /** calcAllLoads: a failed query leaves the loads alone; otherwise each load takes a step, the exact mean as long as
        the loads are below 1024 and the queue length is at most that. */
    method CalcAllLoads(ok: bool, queueLength: nat, ghost limit: nat)
      modifies this
      ensures !ok ==> unchanged(this)
      ensures ok ==> one == CalcLoad(old(one), EXP_1, queueLength % U32) &&
                     five == CalcLoad(old(five), EXP_5, queueLength % U32) &&
                     fifteen == CalcLoad(old(fifteen), EXP_15, queueLength % U32)
      ensures limit <= 1024 && old(Within(limit)) && queueLength <= limit ==> Within(limit)
      ensures limit <= 1024 && old(Within(limit)) && queueLength <= limit && ok ==>
                one == Mean(old(one), EXP_1, queueLength) && five == Mean(old(five), EXP_5, queueLength) &&
                fifteen == Mean(old(fifteen), EXP_15, queueLength)
    {
      hide CalcLoad, Mean;
      if limit <= 1024 && Within(limit) && queueLength <= limit {
        NoOverflow(one, EXP_1, queueLength, limit);
        NoOverflow(five, EXP_5, queueLength, limit);
        NoOverflow(fifteen, EXP_15, queueLength, limit);
      }
      if ok {
        one := CalcLoad(one, EXP_1, queueLength % U32);
        five := CalcLoad(five, EXP_5, queueLength % U32);
        fifteen := CalcLoad(fifteen, EXP_15, queueLength % U32);
      }
    }
  }

  /** Idle samples on the three loads: each falls by its own weight. */
  method Idle(l: Loads, k: nat)
    requires l.Within(1024)
    modifies l
    ensures l.Within(1024)
    ensures l.one == Repeat(old(l.one), EXP_1, 0, k) && l.five == Repeat(old(l.five), EXP_5, 0, k)
    ensures l.fifteen == Repeat(old(l.fifteen), EXP_15, 0, k)
    ensures k == 12 ==> AThirdLeft(old(l.one), l.one, k)
    ensures k == 60 ==> AThirdLeft(old(l.five), l.five, k)
    ensures k == 180 ==> AThirdLeft(old(l.fifteen), l.fifteen, k)
  {
    hide CalcLoad, Mean, AThirdLeft;
    for i := 0 to k
      invariant l.Within(1024)
      invariant l.one == Repeat(old(l.one), EXP_1, 0, i) && l.five == Repeat(old(l.five), EXP_5, 0, i)
      invariant l.fifteen == Repeat(old(l.fifteen), EXP_15, 0, i)
    {
      RepeatSnoc(old(l.one), EXP_1, 0, i);
      RepeatSnoc(old(l.five), EXP_5, 0, i);
      RepeatSnoc(old(l.fifteen), EXP_15, 0, i);
      l.CalcAllLoads(true, 0, 1024);
    }
    WeightsAreMinutes(old(l.one));
    WeightsAreMinutes(old(l.five));
    WeightsAreMinutes(old(l.fifteen));
  }
}

/** The answers of a DDSketch: the relative-error guarantee of GetValueAtQuantile, and how GetQuantileAtValue
    inverts it. */
module SketchAnswers {
  import opened Buckets
  import opened Collapse
  import opened LogMapping
  import opened SketchSpec

  /** `ceil(q * n)`. */
  function Rank(q: real, n: nat): int {
    -((-(q * n as real)).Floor)
  }

  lemma RankBounds(q: real, n: nat)
    requires 0.0 < q < 1.0 && n > 0
    ensures 1 <= Rank(q, n) <= n
    ensures (Rank(q, n) - 1) as real < q * n as real <= Rank(q, n) as real
  {
    assert 0.0 < q * n as real < n as real;
  }

  /** Bucket `i` is the first one at which the running sum of counts reaches `k`. */
  ghost predicate HoldsRank(m: Bins, k: int, i: int) {
    Below(m, i) < k <= Below(m, i + 1)
  }

  /** What GetValueAtQuantile answers. The last case is the fallback of the source: it needs a store that lost
      counts in a collapse. */
  ghost predicate AnswersQuantile(s: Sketch, q: real, r: Result<real>)
    requires s.gamma > 0.0
  {
    if q < 0.0 || q > 1.0 then r == Err(InvalidQuantile)
    else if s.count == 0 then r == Err(EmptySketch)
    else if q == 0.0 then r.Ok? && Fin(r.value) == s.min
    else if q == 1.0 then r.Ok? && Fin(r.value) == s.max
    else if Rank(q, s.count) <= Total(s.bins) then
      exists i :: HoldsRank(s.bins, Rank(q, s.count), i) && r == Ok(IndexToValue(s.Base(), i))
    else r.Ok? && Fin(r.value) == s.max
  }

  // ----- order statistics -----

  function Insert(xs: seq<real>, x: real): seq<real> {
    if xs == [] || Last(xs) <= x then xs + [x] else Insert(Drop(xs), x) + [Last(xs)]
  }

  function Sorted(xs: seq<real>): seq<real> {
    if xs == [] then [] else Insert(Sorted(Drop(xs)), Last(xs))
  }

  ghost predicate Ascending(xs: seq<real>) {
    forall i, j :: 0 <= i < j < |xs| ==> xs[i] <= xs[j]
  }

  ghost predicate AllWithin(xs: seq<real>, lo: real, hi: real) {
    forall i :: 0 <= i < |xs| ==> lo <= xs[i] <= hi
  }

  lemma {:induction false} InsertAscending(xs: seq<real>, x: real, lo: real, hi: real)
    requires Ascending(xs) && AllWithin(xs, lo, hi) && lo <= x <= hi
    ensures Ascending(Insert(xs, x)) && AllWithin(Insert(xs, x), lo, hi)
  {
    if !(xs == [] || Last(xs) <= x) {
      InsertAscending(Drop(xs), x, lo, Last(xs));
    }
  }

  lemma {:induction false} InsertPermutes(xs: seq<real>, x: real)
    ensures multiset(Insert(xs, x)) == multiset(xs) + multiset{x} && |Insert(xs, x)| == |xs| + 1
  {
    if !(xs == [] || Last(xs) <= x) {
      InsertPermutes(Drop(xs), x);
      assert xs == Drop(xs) + [Last(xs)];
    }
  }

  /** `Sorted(xs)[k - 1]` is the k-th smallest value of a stream. */
  lemma {:induction false} SortedSound(xs: seq<real>, lo: real, hi: real)
    requires AllWithin(xs, lo, hi)
    ensures Ascending(Sorted(xs)) && AllWithin(Sorted(xs), lo, hi)
    ensures multiset(Sorted(xs)) == multiset(xs) && |Sorted(xs)| == |xs|
  {
    hide Insert;
    if xs == [] {
    } else {
      SortedSound(Drop(xs), lo, hi);
      InsertAscending(Sorted(Drop(xs)), Last(xs), lo, hi);
      InsertPermutes(Sorted(Drop(xs)), Last(xs));
      assert xs == Drop(xs) + [Last(xs)];
    }
  }

  lemma {:induction false} TallyInsert(b: real, xs: seq<real>, x: real)
    requires b > 1.0
    ensures Tally(b, Insert(xs, x)) == Plus(Tally(b, xs), ValueToIndex(b, x), 1)
  {
    if xs == [] || Last(xs) <= x {
      SnocStream(b, xs, x);
    } else {
      TallyInsert(b, Drop(xs), x);
      SnocStream(b, Insert(Drop(xs), x), Last(xs));
    }
  }

  /** Sorting a stream moves no value to another bucket. */
  lemma {:induction false} TallySorted(b: real, xs: seq<real>)
    requires b > 1.0
    ensures Tally(b, Sorted(xs)) == Tally(b, xs)
  {
    if xs == [] {
    } else {
      TallySorted(b, Drop(xs));
      TallyInsert(b, Sorted(Drop(xs)), Last(xs));
    }
  }

  lemma IndicesOrdered(b: real, x: real, y: real)
    requires b > 1.0 && 0.0 < x <= y
    ensures ValueToIndex(b, x) <= ValueToIndex(b, y)
  {
    ValueInBucket(b, x);
    ValueInBucket(b, y);
    IndexMonotone(b, x, y, ValueToIndex(b, x), ValueToIndex(b, y));
  }

  lemma {:induction false} TallyCount(b: real, xs: seq<real>, i: int)
    requires b > 1.0
    ensures Total(Tally(b, xs)) == |xs| && Below(Tally(b, xs), i) <= |xs|
  {
    BelowAtMostTotal(Tally(b, xs), i);
    if xs == [] {
    } else {
      TallyCount(b, Drop(xs), i);
      TotalPlus(Tally(b, Drop(xs)), ValueToIndex(b, Last(xs)), 1);
    }
  }

  /** In an ascending stream, the values below bucket `i` are a prefix. */
  lemma {:induction false} BelowIsPrefix(b: real, xs: seq<real>, i: int, k: nat)
    requires b > 1.0 && Ascending(xs) && (forall j :: 0 <= j < |xs| ==> xs[j] > 0.0)
    requires 1 <= k <= |xs|
    ensures k <= Below(Tally(b, xs), i) <==> ValueToIndex(b, xs[k - 1]) < i
    decreases |xs|
  {
    var ys, y := Drop(xs), Last(xs);
    BelowPlus(Tally(b, ys), ValueToIndex(b, y), 1, i);
    if k < |xs| {
      BelowIsPrefix(b, ys, i, k);
      IndicesOrdered(b, xs[k - 1], y);
    } else if k > 1 {
      BelowIsPrefix(b, ys, i, k - 1);
      IndicesOrdered(b, xs[k - 2], y);
      TallyCount(b, ys, i);
    } else {
      TallyCount(b, ys, i);
    }
  }

  /** The bucket that holds rank `k` is the bucket of the k-th smallest value. */
  lemma RankBucket(b: real, xs: seq<real>, lo: real, hi: real, k: nat, i: int)
    requires b > 1.0 && lo > 0.0 && AllWithin(xs, lo, hi) && 1 <= k <= |xs|
    requires HoldsRank(Tally(b, xs), k, i)
    ensures |Sorted(xs)| == |xs| && lo <= Sorted(xs)[k - 1] <= hi && ValueToIndex(b, Sorted(xs)[k - 1]) == i
  {
    SortedSound(xs, lo, hi);
    TallySorted(b, xs);
    BelowIsPrefix(b, Sorted(xs), i, k);
    BelowIsPrefix(b, Sorted(xs), i + 1, k);
  }

  /** A rank no larger than the number of values has a bucket; the fallback is never used. */
  lemma RankIsHeld(s: Sketch, xs: seq<real>, q: real)
    requires Represents(s, xs) && xs != [] && 0.0 < q < 1.0
    ensures 1 <= Rank(q, |xs|) <= |xs| && Rank(q, s.count) <= Total(s.bins)
  {
    RankBounds(q, |xs|);
    TallyCount(s.Base(), xs, 0);
  }

  /** The relative-error guarantee: for every stream and every q strictly between 0 and 1, the answer is never
      below the ceil(q*n)-th smallest clamped value and less than a factor 1+gamma above it. */
  lemma QuantileRelativeError(s: Sketch, xs: seq<real>, q: real, r: Result<real>)
    requires Represents(s, xs) && xs != [] && 0.0 < q < 1.0 && AnswersQuantile(s, q, r)
    ensures 1 <= Rank(q, |xs|) <= |Sorted(xs)| && r.Ok?
    ensures WithinFactor(Sorted(xs)[Rank(q, |xs|) - 1], r.value, s.Base())
  {
    hide Rank, Below, Tally, Sum, Minimum, Maximum, ValueToIndex, Sorted;
    var k := Rank(q, |xs|);
    RankIsHeld(s, xs, q);
    StreamExtremes(xs);
    var i :| HoldsRank(s.bins, k, i) && r == Ok(IndexToValue(s.Base(), i));
    RankBucket(s.Base(), xs, s.min.v, s.max.v, k, i);
    RelativeError(s.Base(), Sorted(xs)[k - 1]);
  }

  /** The same for a sketch fed one by one with any positive values. */
  lemma StreamQuantile(s: Sketch, vs: seq<real>, q: real, r: Result<real>)
    requires s.Configured() && AllPositive(vs) && vs != [] && 0.0 < q < 1.0
    requires AnswersQuantile(Feed(s.Emptied(), vs), q, r)
    ensures var xs := Sorted(ClampAll(s, vs));
            && |xs| == |vs| && 1 <= Rank(q, |vs|) <= |vs| && r.Ok?
            && WithinFactor(xs[Rank(q, |vs|) - 1], r.value, 1.0 + s.gamma)
  {
    hide Rank, Sorted, AnswersQuantile, Feed;
    FeedRepresents(s, vs);
    SortedSound(ClampAll(s, vs), s.minValue, s.maxValue);
    QuantileRelativeError(Feed(s.Emptied(), vs), ClampAll(s, vs), q, r);
  }

  /** At the ends the answers are the lowest and the highest value of the stream, exactly. */
  lemma AnswersAtEnds(s: Sketch, xs: seq<real>, r: Result<real>, t: Result<real>)
    requires Represents(s, xs) && xs != [] && AnswersQuantile(s, 0.0, r) && AnswersQuantile(s, 1.0, t)
    ensures |Sorted(xs)| == |xs| && r == Ok(Sorted(xs)[0]) && t == Ok(Sorted(xs)[|xs| - 1])
  {
    hide Tally, Sum, Minimum, Maximum, Sorted;
    StreamExtremes(xs);
    SortedSound(xs, s.min.v, s.max.v);
    assert s.min.v in multiset(Sorted(xs)) && s.max.v in multiset(Sorted(xs));
  }

  /** There is no answer for a quantile outside [0,1], and otherwise none exactly when there is no value. */
  lemma AnswerFails(s: Sketch, q: real, r: Result<real>)
    requires s.gamma > 0.0 && AnswersQuantile(s, q, r)
    ensures r == Err(InvalidQuantile) <==> !(0.0 <= q <= 1.0)
    ensures r == Err(EmptySketch) <==> 0.0 <= q <= 1.0 && s.count == 0
    ensures r.Err? ==> r == Err(InvalidQuantile) || r == Err(EmptySketch)
  {
    hide HoldsRank, Rank, Total, IndexToValue;
  }

  // ----- answers for different quantiles -----

  /** One bucket holds a rank, and a larger rank no lower bucket. */
  lemma RanksOrdered(m: Bins, k: int, i: int, l: int, j: int)
    requires HoldsRank(m, k, i) && HoldsRank(m, l, j) && k <= l
    ensures i <= j
  {
    if j < i {
      BelowMonotone(m, j + 1, i);
    }
  }

  /** GetValueAtQuantile has one answer only, also after a collapse. */
  lemma AnswerUnique(s: Sketch, q: real, r: Result<real>, t: Result<real>)
    requires s.gamma > 0.0 && AnswersQuantile(s, q, r) && AnswersQuantile(s, q, t)
    ensures r == t
  {
    if 0.0 < q < 1.0 && s.count > 0 && Rank(q, s.count) <= Total(s.bins) {
      var k := Rank(q, s.count);
      var i :| HoldsRank(s.bins, k, i) && r == Ok(IndexToValue(s.Base(), i));
      var j :| HoldsRank(s.bins, k, j) && t == Ok(IndexToValue(s.Base(), j));
      RanksOrdered(s.bins, k, i, k, j);
      RanksOrdered(s.bins, k, j, k, i);
    }
  }

  lemma RankMonotone(p: real, q: real, n: nat)
    requires p <= q
    ensures Rank(p, n) <= Rank(q, n)
  {
    assert p * n as real <= q * n as real;
  }

  /** Strictly between 0 and 1 a larger quantile never gets a lower answer. */
  lemma QuantileMonotone(s: Sketch, xs: seq<real>, p: real, q: real, r: Result<real>, t: Result<real>)
    requires Represents(s, xs) && xs != [] && 0.0 < p <= q < 1.0
    requires AnswersQuantile(s, p, r) && AnswersQuantile(s, q, t)
    ensures r.Ok? && t.Ok? && r.value <= t.value
  {
    RankIsHeld(s, xs, p);
    RankIsHeld(s, xs, q);
    RankMonotone(p, q, s.count);
    var i :| HoldsRank(s.bins, Rank(p, s.count), i) && r == Ok(IndexToValue(s.Base(), i));
    var j :| HoldsRank(s.bins, Rank(q, s.count), j) && t == Ok(IndexToValue(s.Base(), j));
    RanksOrdered(s.bins, Rank(p, s.count), i, Rank(q, s.count), j);
    PowMonotone(s.Base(), i, j);
  }

  /** A value above a bucket lies above the representative of the bucket. */
  lemma AboveBucket(b: real, y: real, i: int)
    requires b > 1.0 && y > 0.0 && i < ValueToIndex(b, y)
    ensures IndexToValue(b, i) < y
  {
    ValueInBucket(b, y);
    PowMonotone(b, i, ValueToIndex(b, y) - 1);
  }

  /** At 1 the order breaks: the answer for q = 1 is max itself. An answer below 1 is no higher than that if and only if
      its rank lies below the bucket of max, or max is the representative of its own bucket. */
  lemma WithinMaxIff(s: Sketch, xs: seq<real>, q: real, r: Result<real>)
    requires Represents(s, xs) && xs != [] && 0.0 < q < 1.0 && AnswersQuantile(s, q, r)
    ensures r.Ok? && s.max.Fin? && s.max.v > 0.0
    ensures var top := ValueToIndex(s.Base(), s.max.v);
            r.value <= s.max.v <==>
            Rank(q, s.count) <= Below(s.bins, top) || s.max.v == IndexToValue(s.Base(), top)
  {
    hide Rank, Below, Tally, Sum, Minimum, Maximum, ValueToIndex, Sorted;
    var b, k := s.Base(), Rank(q, |xs|);
    RankIsHeld(s, xs, q);
    StreamExtremes(xs);
    var i :| HoldsRank(s.bins, k, i) && r == Ok(IndexToValue(b, i));
    RankBucket(b, xs, s.min.v, s.max.v, k, i);
    var top := ValueToIndex(b, s.max.v);
    IndicesOrdered(b, Sorted(xs)[k - 1], s.max.v);
    if i < top {
      AboveBucket(b, s.max.v, i);
      BelowMonotone(s.bins, i + 1, top);
    } else {
      RelativeError(b, s.max.v);
    }
  }

  lemma SomeIndices()
    ensures ValueToIndex(1.5, 1.0) == 0 && ValueToIndex(1.5, 1.2) == 1 && ValueToIndex(1.5, 2.0) == 2
    ensures IndexToValue(1.5, 1) == 1.5
  {
    hide ValueToIndex;
    assert Pow(1.5, 2) == 2.25 && Pow(1.5, -1) * 1.5 == 1.0;
    IndexUnique(1.5, 1.0, 0);
    IndexUnique(1.5, 1.2, 1);
    IndexUnique(1.5, 2.0, 2);
  }

  /** A sketch of gamma 0.5 with the single value 1.2. */
  const ONE_VALUE: Sketch := Sketch(0.5, 1.0, 2.0, map[1 := 1], 1, 1.2, Fin(1.2), Fin(1.2))

  lemma OneValueRepresents()
    ensures Represents(ONE_VALUE, [1.2])
  {
    hide ValueToIndex;
    SomeIndices();
    SnocStream(1.5, [], 1.2);
    assert [] + [1.2] == [1.2];
  }

  /** Its median is answered with 1.5, above its maximum. */
  lemma AnswerAboveMax()
    ensures Represents(ONE_VALUE, [1.2])
    ensures AnswersQuantile(ONE_VALUE, 0.5, Ok(1.5)) && AnswersQuantile(ONE_VALUE, 1.0, Ok(1.2))
  {
    hide ValueToIndex, IndexToValue, Total, Below, Rank, Tally, Sum, Minimum, Maximum;
    OneValueRepresents();
    SomeIndices();
    TallyCount(1.5, [1.2], 0);
    BelowEnds(ONE_VALUE.bins, 1);
    BelowEnds(ONE_VALUE.bins, 2);
    RankBounds(0.5, 1);
    assert HoldsRank(ONE_VALUE.bins, Rank(0.5, 1), 1);
  }

  // ----- after a collapse -----

  /** A bucket that holds a rank is one of the buckets. */
  lemma HolderIsBucket(m: Bins, k: int, j: int)
    requires HoldsRank(m, k, j)
    ensures j in m
  {
    BelowStep(m, j);
  }

  /** From a collapse on, the bucket `j` that answers rank `k` is not below a bucket that is left at or below the true
      one, and not above a bucket that is left at or above the true one of rank `k` plus the number of lost counts. */
  lemma CollapsedHolder(before: Bins, after: Bins, k: int, j: int, i: int, l: int, i': int, s: int)
    requires RanksKept(before, after) && s in after && l == Total(before) - Total(after)
    requires HoldsRank(after, k, j) && HoldsRank(before, k, i) && HoldsRank(before, k + l, i')
    ensures s <= i ==> s <= j
    ensures i' <= s ==> j <= s
  {
    hide Below, Total;
    assert RankKept(before, after, s);
    if s <= i && j < s {
      BelowMonotone(after, j + 1, s);
      BelowMonotone(before, s, i);
    }
    if i' <= s && s < j {
      BelowMonotone(before, i' + 1, s + 1);
      BelowMonotone(after, s + 1, j);
    }
  }

  /** How a bucket `s` that is left brackets the answer `e` for quantile `q`: the answer is not below the value of `s`
      if `s` is at or below the bucket of the ceil(q*n)-th smallest value, and not above it if `s` is at or above the
      bucket of the value that many ranks higher as `lost` says. If there is no such higher value, the answer is max. */
  ghost predicate Brackets(ideal: Sketch, xs: seq<real>, lost: int, q: real, e: real, s: int)
    requires ideal.gamma > 0.0 && 1 <= Rank(q, |xs|) <= |xs| == |Sorted(xs)| && lost >= 0
  {
    var b, k := ideal.Base(), Rank(q, |xs|);
    if k + lost <= |xs| then
      && (s <= ValueToIndex(b, Sorted(xs)[k - 1]) ==> IndexToValue(b, s) <= e)
      && (ValueToIndex(b, Sorted(xs)[k + lost - 1]) <= s ==> e <= IndexToValue(b, s))
    else Fin(e) == ideal.max
  }

  lemma ValuesOrdered(b: real, i: int, j: int)
    requires b > 1.0
    ensures i <= j ==> IndexToValue(b, i) <= IndexToValue(b, j)
    ensures j <= i ==> IndexToValue(b, j) <= IndexToValue(b, i)
  {
    if i <= j {
      PowMonotone(b, i, j);
    }
    if j <= i {
      PowMonotone(b, j, i);
    }
  }

  /** The bucket of the k-th smallest value holds rank k. */
  lemma RankHolder(s: Sketch, xs: seq<real>, k: int)
    requires Represents(s, xs) && 1 <= k <= |xs|
    ensures |Sorted(xs)| == |xs| && HoldsRank(s.bins, k, ValueToIndex(s.Base(), Sorted(xs)[k - 1]))
  {
    hide Tally, Sum, Minimum, Maximum, ValueToIndex, Sorted, Below;
    var b := s.Base();
    StreamExtremes(xs);
    SortedSound(xs, s.min.v, s.max.v);
    TallySorted(b, xs);
    var i := ValueToIndex(b, Sorted(xs)[k - 1]);
    BelowIsPrefix(b, Sorted(xs), i, k);
    BelowIsPrefix(b, Sorted(xs), i + 1, k);
  }

  /** Accuracy after collapses: `ideal` holds the stream exactly and `actual` is what collapses left of it. Then for
      every q in (0,1) each bucket that is left brackets the answer, by the number of counts that were lost. */
  lemma QuantileAfterCollapse(ideal: Sketch, xs: seq<real>, actual: Sketch, q: real, r: Result<real>, s: int)
    requires Represents(ideal, xs) && xs != [] && 0.0 < q < 1.0 && actual == ideal.(bins := actual.bins)
    requires RanksKept(ideal.bins, actual.bins) && Total(actual.bins) <= Total(ideal.bins) && s in actual.bins
    requires AnswersQuantile(actual, q, r)
    ensures r.Ok? && |Sorted(xs)| == |xs| && 1 <= Rank(q, |xs|) <= |xs|
    ensures Brackets(ideal, xs, Total(ideal.bins) - Total(actual.bins), q, r.value, s)
  {
    hide Below, Total, Rank, Sorted, ValueToIndex, Tally, Sum, Minimum, Maximum, RanksKept;
    var b, k, l := ideal.Base(), Rank(q, |xs|), Total(ideal.bins) - Total(actual.bins);
    RankIsHeld(ideal, xs, q);
    TallyCount(b, xs, 0);
    StreamExtremes(xs);
    SortedSound(xs, ideal.min.v, ideal.max.v);
    if k + l <= |xs| {
      var j :| HoldsRank(actual.bins, k, j) && r == Ok(IndexToValue(b, j));
      RankHolder(ideal, xs, k);
      RankHolder(ideal, xs, k + l);
      var i, i' := ValueToIndex(b, Sorted(xs)[k - 1]), ValueToIndex(b, Sorted(xs)[k + l - 1]);
      CollapsedHolder(ideal.bins, actual.bins, k, j, i, l, i', s);
      ValuesOrdered(b, s, j);
    }
  }

  // ----- the inverse query -----

  /** What GetQuantileAtValue answers. */
  ghost function QuantileOf(s: Sketch, v: real): Result<real>
    requires s.gamma > 0.0
  {
    if v <= 0.0 then Err(NonPositiveValue)
    else if s.count == 0 then Err(EmptySketch)
    else
      var x := s.Clamp(v);
      if !Less(s.min, Fin(x)) then Ok(0.0)
      else if !Less(Fin(x), s.max) then Ok(1.0)
      else Ok(Below(s.bins, ValueToIndex(s.Base(), x)) as real / s.count as real)
  }

  lemma FractionBounds(a: nat, b: nat, n: nat)
    requires 0 < n && a <= b
    ensures 0.0 <= a as real / n as real <= b as real / n as real
    ensures b <= n ==> b as real / n as real <= 1.0
  {}

  /** There is no answer for a value that is not positive, and otherwise none exactly when there is no value. */
  lemma QuantileOfFails(s: Sketch, v: real)
    requires s.gamma > 0.0
    ensures QuantileOf(s, v) == Err(NonPositiveValue) <==> v <= 0.0
    ensures QuantileOf(s, v) == Err(EmptySketch) <==> v > 0.0 && s.count == 0
    ensures QuantileOf(s, v).Err? ==> v <= 0.0 || s.count == 0
  {
    hide Below, ValueToIndex;
  }

  /** How many values are at most `t`, and how many are below it. */
  function NumAtMost(xs: seq<real>, t: real): nat {
    if xs == [] then 0 else NumAtMost(Drop(xs), t) + if Last(xs) <= t then 1 else 0
  }

  function NumBelow(xs: seq<real>, t: real): nat {
    if xs == [] then 0 else NumBelow(Drop(xs), t) + if Last(xs) < t then 1 else 0
  }

  lemma IndexAtMost(b: real, y: real, k: int)
    requires b > 1.0 && y > 0.0
    ensures ValueToIndex(b, y) <= k <==> y <= Pow(b, k)
  {
    hide ValueToIndex, Pow;
    var i := ValueToIndex(b, y);
    ValueInBucket(b, y);
    if i <= k {
      PowMonotone(b, i, k);
    } else {
      PowMonotone(b, k, i - 1);
    }
  }

  /** The counts below a bucket are the values up to its lower end. */
  lemma {:induction false} BelowCounts(b: real, xs: seq<real>, k: int)
    requires b > 1.0 && AllPositive(xs)
    ensures Below(Tally(b, xs), k + 1) == NumAtMost(xs, Pow(b, k))
  {
    hide ValueToIndex, Pow, Below, Plus;
    if xs == [] {
      BelowEnds(map[], k + 1);
    } else {
      BelowCounts(b, Drop(xs), k);
      BelowPlus(Tally(b, Drop(xs)), ValueToIndex(b, Last(xs)), 1, k + 1);
      IndexAtMost(b, Last(xs), k);
    }
  }

  /** The share of the stream below `x`, to the precision of a sketch: 0 up to the lowest value, 1 from the highest
      on, and between them the share of the values up to the power of 1+gamma below `x`. */
  ghost predicate IsShare(xs: seq<real>, b: real, x: real, e: real)
    requires b > 1.0 && |Sorted(xs)| == |xs| > 0
  {
    if x <= Sorted(xs)[0] then e == 0.0
    else if Sorted(xs)[|xs| - 1] <= x then e == 1.0
    else forall k :: Pow(b, k) < x <= Pow(b, k + 1) ==> e == NumAtMost(xs, Pow(b, k)) as real / |xs| as real
  }

  /** What GetQuantileAtValue answers, over the stream. */
  lemma QuantileOfValue(s: Sketch, xs: seq<real>, v: real)
    requires Represents(s, xs) && xs != [] && v > 0.0
    ensures |Sorted(xs)| == |xs| && QuantileOf(s, v).Ok?
    ensures IsShare(xs, s.Base(), s.Clamp(v), QuantileOf(s, v).value)
  {
    hide Tally, Sum, Minimum, Maximum, Sorted, ValueToIndex, Pow, Below;
    var x, b := s.Clamp(v), s.Base();
    StreamExtremes(xs);
    SortedSound(xs, s.min.v, s.max.v);
    assert s.min.v in multiset(Sorted(xs)) && s.max.v in multiset(Sorted(xs));
    if Less(s.min, Fin(x)) && Less(Fin(x), s.max) {
      forall k | Pow(b, k) < x <= Pow(b, k + 1)
        ensures QuantileOf(s, v).value == NumAtMost(xs, Pow(b, k)) as real / |xs| as real
      {
        IndexUnique(b, x, k + 1);
        BelowCounts(b, xs, k);
      }
    }
  }

  lemma ScaledBelow(b: real, y: real, x: real, p: real)
    requires b > 1.0 && y < x / b && x <= b * p
    ensures y <= p
  {
    assert x / b * b == x;
    assert y * b < x;
  }

  lemma {:induction false} CountsOrdered(xs: seq<real>, b: real, x: real, p: real)
    requires b > 1.0 && p < x <= b * p
    ensures NumBelow(xs, x / b) <= NumAtMost(xs, p) <= NumBelow(xs, x)
  {
    if xs == [] {
    } else {
      CountsOrdered(Drop(xs), b, x, p);
      if Last(xs) < x / b {
        ScaledBelow(b, Last(xs), x, p);
      }
    }
  }

  /** So the answer lies between the share of the values below the one that is asked for, and the share of those a
      factor 1+gamma below it. */
  lemma QuantileOfBounds(s: Sketch, xs: seq<real>, v: real) returns (m: nat)
    requires Represents(s, xs) && xs != [] && v > 0.0
    requires s.min.Fin? && s.max.Fin? && s.min.v < s.Clamp(v) < s.max.v
    ensures QuantileOf(s, v) == Ok(m as real / |xs| as real)
    ensures NumBelow(xs, s.Clamp(v) / s.Base()) <= m <= NumBelow(xs, s.Clamp(v))
  {
    hide Tally, Sum, Minimum, Maximum, Sorted, ValueToIndex, Pow, Below, QuantileOf, NumBelow, NumAtMost;
    var x, b := s.Clamp(v), s.Base();
    StreamExtremes(xs);
    SortedSound(xs, s.min.v, s.max.v);
    assert s.min.v in multiset(Sorted(xs)) && s.max.v in multiset(Sorted(xs));
    var k := ValueToIndex(b, x) - 1;
    ValueInBucket(b, x);
    PowSucc(b, k);
    QuantileOfValue(s, xs, v);
    CountsOrdered(xs, b, x, Pow(b, k));
    m := NumAtMost(xs, Pow(b, k));
  }

  /** GetQuantileAtValue lies in [0,1] and is monotone, also for a store that lost counts in a collapse. */
  lemma QuantileOfMonotone(s: Sketch, v: real, w: real)
    requires s.Configured() && s.count > 0 && Total(s.bins) <= s.count && 0.0 < v <= w
    ensures var x, y := QuantileOf(s, v), QuantileOf(s, w);
            x.Ok? && y.Ok? && 0.0 <= x.value <= y.value <= 1.0
  {
    var b := s.Base();
    var i, j := ValueToIndex(b, s.Clamp(v)), ValueToIndex(b, s.Clamp(w));
    IndicesOrdered(b, s.Clamp(v), s.Clamp(w));
    BelowMonotone(s.bins, i, j);
    BelowAtMostTotal(s.bins, j);
    FractionBounds(Below(s.bins, i), Below(s.bins, j), s.count);
  }

  /** The representative of a bucket below the highest one is within the bounds and below max. */
  lemma RepresentativeInside(s: Sketch, xs: seq<real>, k: nat, i: int, j: int)
    requires Represents(s, xs) && WithinBounds(s, xs)
    requires 1 <= k <= |xs| && HoldsRank(s.bins, k, i) && j in s.bins && i < j
    ensures var e := IndexToValue(s.Base(), i);
            s.minValue <= e <= s.maxValue && Less(Fin(e), s.max)
  {
    var b, e := s.Base(), IndexToValue(s.Base(), i);
    RankBucket(b, xs, s.minValue, s.maxValue, k, i);
    RelativeError(b, Sorted(xs)[k - 1]);
    var t := TallyWitness(b, xs, j);
    AboveBucket(b, xs[t], i);
    StreamExtremes(xs);
  }

  /** If no value lies below the representative of a bucket, no count lies below the bucket. */
  lemma NothingBelow(s: Sketch, xs: seq<real>, i: int)
    requires Represents(s, xs) && xs != [] && !Less(s.min, Fin(IndexToValue(s.Base(), i)))
    ensures Below(s.bins, i) == 0
  {
    var b, e := s.Base(), IndexToValue(s.Base(), i);
    StreamExtremes(xs);
    SortedSound(xs, s.min.v, s.max.v);
    TallySorted(b, xs);
    IndexRoundTrip(b, i);
    IndicesOrdered(b, e, Sorted(xs)[0]);
    BelowIsPrefix(b, Sorted(xs), i, 1);
  }

  /** Asking for the quantile of an answer counts the values below its bucket. */
  lemma QuantileOfAnswer(s: Sketch, xs: seq<real>, k: nat, i: int, j: int)
    requires Represents(s, xs) && WithinBounds(s, xs)
    requires 1 <= k <= |xs| && HoldsRank(s.bins, k, i) && j in s.bins && i < j
    ensures QuantileOf(s, IndexToValue(s.Base(), i)) == Ok(Below(s.bins, i) as real / s.count as real)
  {
    RepresentativeInside(s, xs, k, i, j);
    IndexRoundTrip(s.Base(), i);
    if !Less(s.min, Fin(IndexToValue(s.Base(), i))) {
      NothingBelow(s, xs, i);
    }
  }

  lemma ShareBounds(q: real, n: nat, k: int, below: nat, at: nat)
    requires n > 0 && (k - 1) as real < q * n as real <= k as real && below < k <= below + at
    ensures below as real / n as real < q <= below as real / n as real + at as real / n as real
  {
    var m := n as real;
    assert below as real < q * m <= below as real + at as real;
    assert below as real / m < q by { assert q == q * m / m; }
    assert q <= (below as real + at as real) / m;
  }

  /** The representative of the highest bucket is not below max. */
  lemma HighestRepresentative(s: Sketch, xs: seq<real>, i: int)
    requires Represents(s, xs) && xs != [] && forall j <- s.bins :: j <= i
    ensures s.min.Fin? && s.max.Fin? && s.min.v <= s.max.v <= IndexToValue(s.Base(), i)
  {
    hide ValueToIndex, Tally, Sum, Minimum, Maximum;
    var b := s.Base();
    StreamExtremes(xs);
    var t :| 0 <= t < |xs| && xs[t] == s.max.v;
    TallyMember(b, xs, t);
    RelativeError(b, s.max.v);
    PowMonotone(b, ValueToIndex(b, s.max.v), i);
  }

  /** In the highest bucket the value reaches max, and the answer is 1; but 0 if it reaches min as well, because that is
      looked at first. */
  lemma QuantileOfHighest(s: Sketch, xs: seq<real>, i: int)
    requires Represents(s, xs) && WithinBounds(s, xs) && xs != [] && forall j <- s.bins :: j <= i
    ensures QuantileOf(s, IndexToValue(s.Base(), i)) ==
            Ok(if Fin(s.Clamp(IndexToValue(s.Base(), i))) == s.min then 0.0 else 1.0)
  {
    hide ValueToIndex, Tally, Sum, Minimum, Maximum;
    HighestRepresentative(s, xs, i);
    StreamExtremes(xs);
    var t :| 0 <= t < |xs| && xs[t] == s.max.v;
    assert s.max.v <= s.Clamp(IndexToValue(s.Base(), i));
  }

  /** GetQuantileAtValue undoes GetValueAtQuantile up to the share of the answering bucket, unless that bucket is the
      highest one: then the answer is 1, or 0 if the value is clamped to min. */
  lemma QuantileInverse(s: Sketch, xs: seq<real>, q: real, i: int)
    requires Represents(s, xs) && WithinBounds(s, xs) && xs != [] && 0.0 < q < 1.0
    requires HoldsRank(s.bins, Rank(q, s.count), i)
    ensures var e := IndexToValue(s.Base(), i);
            var r := QuantileOf(s, e);
            && r.Ok?
            && if forall j <- s.bins :: j <= i then r.value == if Fin(s.Clamp(e)) == s.min then 0.0 else 1.0
               else r.value < q <= r.value + At(s.bins, i) as real / s.count as real
  {
    hide Rank, Below, QuantileOf, IndexToValue, Tally, Sum, Minimum, Maximum, ValueToIndex;
    if forall j <- s.bins :: j <= i {
      QuantileOfHighest(s, xs, i);
    } else {
      var j :| j in s.bins && i < j;
      RankBounds(q, s.count);
      BelowStep(s.bins, i);
      QuantileOfAnswer(s, xs, Rank(q, s.count), i, j);
      ShareBounds(q, s.count, Rank(q, s.count), Below(s.bins, i), At(s.bins, i));
    }
  }
}

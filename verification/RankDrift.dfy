/** What is left of the accuracy of a sketch that goes on taking values and merges while its store collapses buckets:
    ranks drift by no more than the counts of the buckets that went. */
module RankDrift {
  import opened Buckets
  import opened Collapse
  import opened DDSketches
  import opened LogMapping
  import opened SketchAnswers
  import opened SketchSpec

  // ----- buckets -----

  /** The counts of the buckets that a collapse removes. */
  ghost function Displaced(before: Bins, after: Bins): nat {
    Total(before - after.Keys)
  }

  /** The counts below index `k` differ by at most `moved`. */
  ghost predicate Near(ideal: Bins, actual: Bins, moved: nat, k: int) {
    Below(actual, k) - moved <= Below(ideal, k) <= Below(actual, k) + moved
  }

  /** So they do below every index, and there is no bucket that the ideal ones do not have. */
  ghost predicate Shifted(ideal: Bins, actual: Bins, moved: nat) {
    actual.Keys <= ideal.Keys && forall k :: Near(ideal, actual, moved, k)
  }

  lemma ShiftedSelf(m: Bins)
    ensures Shifted(m, m, 0)
  {}

  lemma BelowUnion(a: Bins, b: Bins, k: int)
    ensures Below(Union(a, b), k) == Below(a, k) + Below(b, k)
  {
    assert BinsBelow(Union(a, b), k) == Union(BinsBelow(a, k), BinsBelow(b, k));
    TotalUnion(BinsBelow(a, k), BinsBelow(b, k));
  }

  /** Adding to both sides, whatever is added, adds up the differences. */
  lemma ShiftedUnion(a: Bins, b: Bins, moved: nat, c: Bins, d: Bins, more: nat)
    requires Shifted(a, b, moved) && Shifted(c, d, more)
    ensures Shifted(Union(a, c), Union(b, d), moved + more)
  {
    hide Below;
    var both := moved + more;
    forall k ensures Near(Union(a, c), Union(b, d), both, k) {
      assert Near(a, b, moved, k) && Near(c, d, more, k);
      BelowUnion(a, c, k);
      BelowUnion(b, d, k);
    }
  }

  lemma ShiftedTrans(a: Bins, b: Bins, moved: nat, c: Bins, more: nat)
    requires Shifted(a, b, moved) && Shifted(b, c, more)
    ensures Shifted(a, c, moved + more)
  {
    hide Below;
    var both := moved + more;
    forall k ensures Near(a, c, both, k) {
      assert Near(a, b, moved, k) && Near(b, c, more, k);
    }
  }

  lemma SplitOff(before: Bins, after: Bins) returns (stay: Bins, gone: Bins, extra: Bins)
    requires Grows(before, after)
    ensures gone == before - after.Keys && before == Union(stay, gone) && after == Union(stay, extra)
  {
    stay := map k | k in after :: before[k];
    gone := before - after.Keys;
    extra := map k | k in after :: after[k] - before[k];
  }

  /** A collapse shifts no rank by more than the counts of the buckets it removes: what a remaining bucket gains comes
      from them. */
  lemma ReducedShifts(before: Bins, after: Bins)
    requires Reduced(before, after)
    ensures Shifted(before, after, Displaced(before, after))
  {
    hide Below, Total, RanksKept, Union;
    var stay, gone, extra := SplitOff(before, after);
    TotalUnion(stay, gone);
    TotalUnion(stay, extra);
    forall k ensures Near(before, after, Displaced(before, after), k) {
      BelowUnion(stay, gone, k);
      BelowUnion(stay, extra, k);
      BelowAtMostTotal(gone, k);
      BelowAtMostTotal(extra, k);
    }
    ThinnedKeys(before, after);
  }

  lemma {:induction false} TotalAtMost(m: Bins, threshold: nat)
    requires forall k <- m :: m[k] <= threshold
    ensures Total(m) <= threshold * |m|
    decreases |m|
  {
    if |m| > 0 {
      var k := AnyKey(m);
      TotalSplit(m, k);
      TotalAtMost(m - {k}, threshold);
      assert |m - {k}| == |m| - 1;
      assert threshold * |m| == threshold * (|m| - 1) + threshold;
    } else {
      assert m == map[];
    }
  }

  lemma SmallStays(before: Bins, after: Bins, threshold: nat, lo: int, hi: int)
    requires CollapsesTo(before, after, threshold, lo, hi) && |before| < 10
    ensures after == before && before - after.Keys == map[]
  {}

  /** A collapse displaces at most its threshold for each bucket it removes. */
  lemma CollapseDisplaces(before: Bins, after: Bins, threshold: nat, lo: int, hi: int)
    requires CollapsesTo(before, after, threshold, lo, hi) && Positive(before) && Extremes(before, lo, hi)
    ensures Displaced(before, after) <= threshold * (|before| - |after|)
  {
    hide CollapsesTo, Total, Extremes;
    CollapseSound(before, after, threshold, lo, hi);
    var low := LowCount(before, threshold, lo, hi);
    var gone := before - after.Keys;
    if |before| >= 10 {
      LowCountInside(before, threshold, lo, hi);
      RemovedCount(before, after, low);
      assert gone.Keys == low;
      assert |gone| == |low|;
    } else {
      SmallStays(before, after, threshold, lo, hi);
    }
    TotalAtMost(gone, threshold);
  }

  // ----- ranks -----

  /** With the counts below every index near, the bucket that answers rank `k` lies between the buckets of the ranks
      that many lower and higher. */
  lemma ShiftedHolder(ideal: Bins, actual: Bins, moved: nat, k: int, j: int, i: int, i': int)
    requires Shifted(ideal, actual, moved) && HoldsRank(actual, k, j)
    ensures HoldsRank(ideal, k - moved, i) ==> i <= j
    ensures HoldsRank(ideal, k + moved, i') ==> j <= i'
  {
    hide Below;
    assert Near(ideal, actual, moved, j) && Near(ideal, actual, moved, j + 1);
    if HoldsRank(ideal, k - moved, i) && j < i {
      BelowMonotone(ideal, j + 1, i);
    }
    if HoldsRank(ideal, k + moved, i') && i' < j {
      BelowMonotone(ideal, i' + 1, j);
    }
  }

  lemma {:induction false} UpperBound(m: Bins) returns (top: int)
    ensures forall k <- m :: k < top
    decreases |m|
  {
    if |m| > 0 {
      var k := AnyKey(m);
      var t := UpperBound(m - {k});
      top := if k < t then t else k + 1;
      assert forall j <- m :: j == k || j in m - {k};
    } else {
      top := 0;
    }
  }

  lemma ShiftedTotal(ideal: Bins, actual: Bins, moved: nat)
    requires Shifted(ideal, actual, moved)
    ensures Total(ideal) <= Total(actual) + moved
  {
    hide Below, Total;
    var top := UpperBound(ideal);
    assert Near(ideal, actual, moved, top);
    BelowEnds(ideal, top);
    BelowAtMostTotal(actual, top);
  }

  // ----- sketches -----

  /** `actual` is the sketch `ideal` but for its buckets, whose ranks have drifted by at most `moved`. */
  ghost predicate Tracks(ideal: Sketch, actual: Sketch, moved: nat) {
    actual.(bins := ideal.bins) == ideal && Shifted(ideal.bins, actual.bins, moved)
  }

  lemma TracksSelf(s: Sketch)
    ensures Tracks(s, s, 0)
  {
    ShiftedSelf(s.bins);
  }

  lemma DisplacedNothing(m: Bins)
    ensures Displaced(m, m) == 0
  {
    assert m - m.Keys == map[];
  }

  /** What a store leaves of a sketch adds to the drift what it displaces. */
  lemma FollowsTracks(ideal: Sketch, sum: Sketch, moved: nat, after: Sketch)
    requires Tracks(ideal, sum, moved) && Follows(sum, after)
    ensures Tracks(ideal, after, moved + Displaced(sum.bins, after.bins))
  {
    hide Shifted, Reduced, Total;
    if after.bins == sum.bins {
      assert sum.bins - after.bins.Keys == map[];
      ShiftedSelf(sum.bins);
      DisplacedNothing(sum.bins);
      ShiftedTrans(ideal.bins, sum.bins, moved, after.bins, 0);
    } else {
      ReducedShifts(sum.bins, after.bins);
      ShiftedTrans(ideal.bins, sum.bins, moved, after.bins, Displaced(sum.bins, after.bins));
    }
  }

  /** An add, for every value, bucket and collapse. */
  lemma AddTracks(ideal: Sketch, actual: Sketch, moved: nat, v: real, c: nat, after: Sketch)
    requires ideal.gamma > 0.0 && v > 0.0 && Tracks(ideal, actual, moved) && Follows(actual.Add(v, c), after)
    ensures Tracks(ideal.Add(v, c), after, moved + Displaced(actual.Add(v, c).bins, after.bins))
  {
    hide Shifted, Follows, Displaced, ValueToIndex, Union, Plus;
    var i := ValueToIndex(ideal.Base(), ideal.Clamp(v));
    PlusIsUnion(ideal.bins, i, c);
    PlusIsUnion(actual.bins, i, c);
    ShiftedSelf(map[i := c]);
    ShiftedUnion(ideal.bins, actual.bins, moved, map[i := c], map[i := c], 0);
    FollowsTracks(ideal.Add(v, c), actual.Add(v, c), moved, after);
  }

  /** A merge of sketches that both have drifted. */
  lemma MergeTracks(ideal: Sketch, actual: Sketch, moved: nat, theirs: Sketch, other: Sketch, more: nat, after: Sketch)
    requires Tracks(ideal, actual, moved) && Tracks(theirs, other, more) && Follows(actual.Merge(other), after)
    ensures Tracks(ideal.Merge(theirs), after, moved + more + Displaced(actual.Merge(other).bins, after.bins))
  {
    hide Shifted, Follows, Displaced, Union;
    ShiftedUnion(ideal.bins, actual.bins, moved, theirs.bins, other.bins, more);
    FollowsTracks(ideal.Merge(theirs), actual.Merge(other), moved + more, after);
  }

  // ----- answers -----

  ghost predicate WithinScale(e: real, b: real, x: real) { e < b * x }

  /** `e` is at least the value `moved` ranks below rank `k`, and less than a factor `b` above the value `moved` ranks
      above it; at the ends, the lowest and the highest value. */
  ghost predicate WithinRanks(sorted: seq<real>, k: int, moved: nat, e: real, b: real)
    requires 1 <= k <= |sorted|
  {
    && sorted[if k - moved < 1 then 0 else k - moved - 1] <= e
    && WithinScale(e, b, sorted[if k + moved > |sorted| then |sorted| - 1 else k + moved - 1])
  }

  /** Without drift this is the relative error alone. */
  lemma WithinNoRanks(sorted: seq<real>, k: int, e: real, b: real)
    requires 1 <= k <= |sorted|
    ensures WithinRanks(sorted, k, 0, e, b) <==> WithinFactor(sorted[k - 1], e, b)
  {}

  lemma ScaledOrder(b: real, x: real, y: real)
    requires b > 0.0 && x <= y
    ensures b * x <= b * y
  {}

  lemma ScaledUp(b: real, x: real)
    requires b > 1.0 && x > 0.0
    ensures WithinScale(x, b, x)
  {}

  lemma SortedStream(s: Sketch, xs: seq<real>)
    requires Represents(s, xs) && xs != []
    ensures |Sorted(xs)| == |xs| && Ascending(Sorted(xs)) && Tally(s.Base(), Sorted(xs)) == s.bins
    ensures s.min.Fin? && s.max.Fin? && AllWithin(Sorted(xs), s.min.v, s.max.v) && Sorted(xs)[|xs| - 1] == s.max.v
    ensures forall i :: 0 <= i < |xs| ==> Sorted(xs)[i] > 0.0
  {
    hide Tally, Sum, Minimum, Maximum, ValueToIndex, Sorted;
    StreamExtremes(xs);
    SortedSound(xs, s.min.v, s.max.v);
    TallySorted(s.Base(), xs);
    assert s.max.v in multiset(Sorted(xs));
    forall i | 0 <= i < |xs| ensures Sorted(xs)[i] > 0.0 {
      assert Sorted(xs)[i] in multiset(xs);
    }
  }

  lemma BaseAboveOne(s: Sketch, xs: seq<real>)
    requires Represents(s, xs)
    ensures s.Base() > 1.0 && s.count == |xs|
  {}

  /** The representative of a bucket lies between the lowest value and 1+gamma times the highest. */
  lemma BucketInside(s: Sketch, xs: seq<real>, j: int)
    requires Represents(s, xs) && xs != [] && j in s.bins
    ensures |Sorted(xs)| == |xs|
    ensures Sorted(xs)[0] <= IndexToValue(s.Base(), j) < s.Base() * Sorted(xs)[|xs| - 1]
  {
    hide Represents, ValueToIndex, Sorted, Tally, IndexToValue;
    var b := s.Base();
    BaseAboveOne(s, xs);
    SortedStream(s, xs);
    var t := TallyWitness(b, Sorted(xs), j);
    RelativeError(b, Sorted(xs)[t]);
    ScaledOrder(b, Sorted(xs)[t], Sorted(xs)[|xs| - 1]);
  }

  /** The bucket `j` that answers rank `k` is not below that of the value `moved` ranks lower. */
  lemma HolderFromBelow(ideal: Sketch, xs: seq<real>, actual: Bins, moved: nat, k: int, j: int)
    requires Represents(ideal, xs) && 1 <= k - moved && k <= |xs|
    requires Shifted(ideal.bins, actual, moved) && HoldsRank(actual, k, j)
    ensures |Sorted(xs)| == |xs| && Sorted(xs)[k - moved - 1] <= IndexToValue(ideal.Base(), j)
  {
    hide Represents, ValueToIndex, Sorted, IndexToValue, Shifted, HoldsRank, Tally;
    var b := ideal.Base();
    BaseAboveOne(ideal, xs);
    SortedStream(ideal, xs);
    var x := Sorted(xs)[k - moved - 1];
    RankHolder(ideal, xs, k - moved);
    ShiftedHolder(ideal.bins, actual, moved, k, j, ValueToIndex(b, x), j);
    RelativeError(b, x);
    ValuesOrdered(b, ValueToIndex(b, x), j);
  }

  /** And not above that of the value `moved` ranks higher. */
  lemma HolderFromAbove(ideal: Sketch, xs: seq<real>, actual: Bins, moved: nat, k: int, j: int)
    requires Represents(ideal, xs) && 1 <= k && k + moved <= |xs|
    requires Shifted(ideal.bins, actual, moved) && HoldsRank(actual, k, j)
    ensures |Sorted(xs)| == |xs| && IndexToValue(ideal.Base(), j) < ideal.Base() * Sorted(xs)[k + moved - 1]
  {
    hide Represents, ValueToIndex, Sorted, IndexToValue, Shifted, HoldsRank, Tally;
    var b := ideal.Base();
    BaseAboveOne(ideal, xs);
    SortedStream(ideal, xs);
    var x := Sorted(xs)[k + moved - 1];
    RankHolder(ideal, xs, k + moved);
    ShiftedHolder(ideal.bins, actual, moved, k, j, j, ValueToIndex(b, x));
    RelativeError(b, x);
    ValuesOrdered(b, j, ValueToIndex(b, x));
  }

  lemma HolderWithin(ideal: Sketch, xs: seq<real>, actual: Bins, moved: nat, k: int, j: int)
    requires Represents(ideal, xs) && 1 <= k <= |xs| && Shifted(ideal.bins, actual, moved) && HoldsRank(actual, k, j)
    ensures |Sorted(xs)| == |xs|
    ensures WithinRanks(Sorted(xs), k, moved, IndexToValue(ideal.Base(), j), ideal.Base())
  {
    hide Represents, Sorted, IndexToValue, HoldsRank, Below;
    HolderIsBucket(actual, k, j);
    BucketInside(ideal, xs, j);
    if k - moved >= 1 {
      HolderFromBelow(ideal, xs, actual, moved, k, j);
    }
    if k + moved <= |xs| {
      HolderFromAbove(ideal, xs, actual, moved, k, j);
    }
  }

  lemma HighestWithin(sorted: seq<real>, k: int, moved: nat, e: real, b: real)
    requires 1 <= k <= |sorted| <= k + moved && b > 1.0 && e > 0.0
    requires sorted[|sorted| - 1] == e && forall i :: 0 <= i < |sorted| ==> sorted[i] <= e
    ensures WithinRanks(sorted, k, moved, e, b)
  {
    ScaledUp(b, e);
    var top := if k + moved > |sorted| then |sorted| - 1 else k + moved - 1;
    assert sorted[top] == e;
  }

  /** The fallback of GetValueAtQuantile: max, when the drift reaches beyond the highest value. */
  lemma MaxWithin(ideal: Sketch, xs: seq<real>, k: int, moved: nat)
    requires Represents(ideal, xs) && 1 <= k <= |xs| <= k + moved
    ensures |Sorted(xs)| == |xs| && ideal.max.Fin?
    ensures WithinRanks(Sorted(xs), k, moved, ideal.max.v, ideal.Base())
  {
    hide Represents, Sorted, Tally, WithinRanks;
    BaseAboveOne(ideal, xs);
    SortedStream(ideal, xs);
    HighestWithin(Sorted(xs), k, moved, ideal.max.v, ideal.Base());
  }

  lemma StreamTotal(s: Sketch, xs: seq<real>)
    requires Represents(s, xs)
    ensures Total(s.bins) == |xs|
  {
    hide Tally, ValueToIndex, Sum, Minimum, Maximum;
    TallyCount(s.Base(), xs, 0);
  }

  /** Accuracy over every run of adds, merges and collapses, in any order: `ideal` holds the stream exactly, and the
      buckets of `actual` have drifted from it by at most `moved`. Then the answer for every q in (0,1) lies within the
      relative error of the values up to `moved` ranks around the ceil(q*n)-th smallest one. */
  lemma QuantileOfDrifted(ideal: Sketch, xs: seq<real>, actual: Sketch, moved: nat, q: real, r: Result<real>)
    requires Represents(ideal, xs) && xs != [] && 0.0 < q < 1.0
    requires Tracks(ideal, actual, moved) && AnswersQuantile(actual, q, r)
    ensures r.Ok? && 1 <= Rank(q, |xs|) <= |Sorted(xs)| == |xs|
    ensures WithinRanks(Sorted(xs), Rank(q, |xs|), moved, r.value, ideal.Base())
  {
    hide Rank, Sorted, Total, HoldsRank, Shifted, WithinRanks, IndexToValue, Represents;
    var k := Rank(q, |xs|);
    BaseAboveOne(ideal, xs);
    RankBounds(q, |xs|);
    StreamTotal(ideal, xs);
    if k <= Total(actual.bins) {
      var j :| HoldsRank(actual.bins, k, j) && r == Ok(IndexToValue(actual.Base(), j));
      HolderWithin(ideal, xs, actual.bins, moved, k, j);
    } else {
      ShiftedTotal(ideal.bins, actual.bins, moved);
      MaxWithin(ideal, xs, k, moved);
    }
  }

  /** The ends do not drift. */
  lemma EndsOfDrifted(ideal: Sketch, xs: seq<real>, actual: Sketch, moved: nat, r: Result<real>, t: Result<real>)
    requires Represents(ideal, xs) && xs != [] && Tracks(ideal, actual, moved)
    requires AnswersQuantile(actual, 0.0, r) && AnswersQuantile(actual, 1.0, t)
    ensures |Sorted(xs)| == |xs| && r == Ok(Sorted(xs)[0]) && t == Ok(Sorted(xs)[|xs| - 1])
  {
    hide Represents, Sorted, Shifted, Rank, Total, HoldsRank;
    BaseAboveOne(ideal, xs);
    AnswersAtEnds(ideal, xs, r, t);
  }

  lemma QuotientsApart(x: real, y: real, d: real, m: real)
    requires m > 0.0 && x - y <= d
    ensures x / m - y / m <= d / m
  {
    var p, q, r := x / m, y / m, d / m;
    assert p * m == x && q * m == y && r * m == d;
    assert (p - q - r) * m == p * m - q * m - r * m;
  }

  lemma SharesApart(a: nat, b: nat, moved: nat, n: nat)
    requires n > 0 && b - moved <= a <= b + moved
    ensures Apart(a as real / n as real, b as real / n as real) <= moved as real / n as real
  {
    QuotientsApart(a as real, b as real, moved as real, n as real);
    QuotientsApart(b as real, a as real, moved as real, n as real);
  }

  /** The inverse query of a sketch whose ranks have drifted is off by at most the share of the drift. */
  lemma ShareOfDrifted(ideal: Sketch, xs: seq<real>, actual: Sketch, moved: nat, v: real)
    requires Represents(ideal, xs) && xs != [] && Tracks(ideal, actual, moved) && v > 0.0
    ensures QuantileOf(actual, v).Ok? && QuantileOf(ideal, v).Ok?
    ensures Apart(QuantileOf(actual, v).value, QuantileOf(ideal, v).value) <= moved as real / |xs| as real
  {
    hide Below, ValueToIndex, Tally, Sum, Minimum, Maximum;
    var i := ValueToIndex(ideal.Base(), ideal.Clamp(v));
    assert Near(ideal.bins, actual.bins, moved, i);
    SharesApart(Below(actual.bins, i), Below(ideal.bins, i), moved, |xs|);
    SharesApart(0, 0, moved, |xs|);
  }
}

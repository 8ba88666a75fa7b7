/** What collapsing low-count buckets means, independent of the order in which buckets are taken. */
module Collapse {
  import opened Buckets

  /** One removed bucket and the nearest buckets left on both sides. */
  datatype Removal = Removal(index: int, lower: int, upper: int)

  /** No bucket of `m` lies strictly between `lower` and `upper` except possibly `index`. */
  ghost predicate Neighbours(m: Bins, r: Removal) {
    && r.lower < r.index < r.upper
    && r.lower in m && r.upper in m
    && forall k <- m :: k <= r.lower || k == r.index || r.upper <= k
  }

  /** The part of a count that is proportional to `part` out of `whole`, rounded down. */
  function Portion(c: nat, part: nat, whole: nat): (p: nat)
    requires whole > 0
  {
    var product := c * part;
    assert product >= 0;
    product / whole
  }

  /** The share of a removed count that goes to the lower neighbour: inverse to its distance, rounded down. */
  function LowerShare(c: nat, r: Removal): nat
    requires r.lower < r.index < r.upper
  {
    Portion(c, r.upper - r.index, r.upper - r.lower)
  }

  function UpperShare(c: nat, r: Removal): nat
    requires r.lower < r.index < r.upper
  {
    Portion(c, r.index - r.lower, r.upper - r.lower)
  }

  lemma DivisionRemainder(n: nat, d: nat)
    requires d > 0
    ensures n == n / d * d + n % d && 0 <= n % d < d
  {}

  lemma NonNegative(x: nat, y: nat)
    ensures x * y >= 0
  {}

  /** The shares of a count between distances `x` and `y`, with what rounding cuts off each. */
  lemma Remainders(c: nat, r: Removal)
    requires r.lower < r.index < r.upper
    ensures var x, y, d := r.index - r.lower, r.upper - r.index, r.upper - r.lower;
            && c * y == LowerShare(c, r) * d + c * y % d && 0 <= c * y % d < d
            && c * x == UpperShare(c, r) * d + c * x % d && 0 <= c * x % d < d
  {
    var x, y, d := r.index - r.lower, r.upper - r.index, r.upper - r.lower;
    NonNegative(c, x);
    NonNegative(c, y);
    DivisionRemainder(c * x, d);
    DivisionRemainder(c * y, d);
  }

  lemma MulBounds(e: int, d: int, lo: int, hi: int)
    requires d > 0 && (lo - 1) * d < e * d < (hi + 1) * d
    ensures lo <= e <= hi
  {
    assert e < lo ==> e * d <= (lo - 1) * d;
    assert e > hi ==> e * d >= (hi + 1) * d;
  }

  lemma RemainderSum(c: nat, d: int, p: nat, q: nat, s: nat, t: nat)
    requires s < d && t < d && c * d == p * d + s + q * d + t
    ensures p + q == c <==> s == 0
  {
    var e := c - p - q;
    assert e * d == s + t;
    if s == 0 {
      MulBounds(e, d, 0, 0);
    }
  }

  lemma SumOfShares(c: nat, d: int, p: nat, q: nat, s: nat, t: nat)
    requires s < d && t < d && c * d == p * d + s + q * d + t
    ensures c - 1 <= p + q <= c
  {
    var e := c - p - q;
    assert e * d == s + t;
    MulBounds(e, d, 0, 1);
  }

  lemma TorqueScaled(c: nat, x: int, y: int, d: int, p: nat, q: nat, s: nat, t: nat)
    requires c * y == p * d + s && c * x == q * d + t
    ensures (p * x - q * y) * d == t * y - s * x
  {
    calc {
      (p * x - q * y) * d;
      (p * d) * x - (q * d) * y;
      (c * y - s) * x - (c * x - t) * y;
      t * y - s * x;
    }
  }

  lemma ProductBelowSquare(t: nat, y: int, d: int)
    requires 0 < y < d && t < d
    ensures 0 <= t * y < d * d
  {
    assert t * y <= t * d;
    assert t * d <= (d - 1) * d;
  }

  lemma MulBoundsProducts(x: int, y: int, d: int, s: nat, t: nat)
    requires 0 < x < d && 0 < y < d && s < d && t < d
    ensures -d * d < t * y - s * x < d * d
  {
    ProductBelowSquare(t, y, d);
    ProductBelowSquare(s, x, d);
  }

  lemma Torque(c: nat, x: int, y: int, d: int, p: nat, q: nat, s: nat, t: nat)
    requires x > 0 && y > 0 && d == x + y && s < d && t < d
    requires c * y == p * d + s && c * x == q * d + t
    ensures -d < p * x - q * y < d
  {
    var e := p * x - q * y;
    TorqueScaled(c, x, y, d, p, q, s, t);
    MulBoundsProducts(x, y, d, s, t);
    MulBounds(e, d, -d + 1, d - 1);
  }

  /** The balance of two shares `p` and `q`, with `s` and `t` cut off by rounding, over plain numbers. */
  lemma SharesOf(c: nat, x: nat, y: nat, d: int, p: nat, q: nat, s: nat, t: nat)
    requires x > 0 && y > 0 && d == x + y && s < d && t < d && c * y == p * d + s && c * x == q * d + t
    ensures c - 1 <= p + q <= c && (p + q == c <==> s == 0)
    ensures -d < p * x - q * y < d
  {
    assert c * d == c * x + c * y;
    SumOfShares(c, d, p, q, s, t);
    RemainderSum(c, d, p, q, s, t);
    Torque(c, x, y, d, p, q, s, t);
  }

  /** Rounding loses at most one count, and the shares balance about the removed index: their torques differ by
      less than the width of the gap. */
  lemma SharesBalance(c: nat, r: Removal)
    requires r.lower < r.index < r.upper
    ensures c - 1 <= LowerShare(c, r) + UpperShare(c, r) <= c
    ensures var torque := LowerShare(c, r) * (r.index - r.lower) - UpperShare(c, r) * (r.upper - r.index);
            r.lower - r.upper < torque < r.upper - r.lower
  {
    hide LowerShare, UpperShare;
    var x, y, d := r.index - r.lower, r.upper - r.index, r.upper - r.lower;
    var p, q := LowerShare(c, r), UpperShare(c, r);
    Remainders(c, r);
    SharesOf(c, x, y, d, p, q, c * y % d, c * x % d);
  }

  /** A removal loses nothing exactly when the shares need no rounding. */
  lemma SharesExactIff(c: nat, r: Removal)
    requires r.lower < r.index < r.upper
    ensures LowerShare(c, r) + UpperShare(c, r) == c <==> c * (r.upper - r.index) % (r.upper - r.lower) == 0
  {
    hide LowerShare, UpperShare;
    var x, y, d := r.index - r.lower, r.upper - r.index, r.upper - r.lower;
    Remainders(c, r);
    SharesOf(c, x, y, d, LowerShare(c, r), UpperShare(c, r), c * y % d, c * x % d);
  }

  /** Deletes one bucket and hands its current count to its neighbours. */
  function Redistribute(m: Bins, r: Removal): Bins
    requires r.index in m && r.lower < r.index < r.upper
  {
    Plus(Plus(m - {r.index}, r.lower, LowerShare(m[r.index], r)), r.upper, UpperShare(m[r.index], r))
  }

  /** A sequence of removals, each of a bucket still present and with its neighbours at that time. */
  ghost predicate Legal(m: Bins, rs: seq<Removal>)
    decreases |rs|, 0
  {
    rs != [] ==>
      var last := |rs| - 1;
      && Legal(m, rs[..last])
      && rs[last].index in RemoveAll(m, rs[..last])
      && Neighbours(RemoveAll(m, rs[..last]), rs[last])
  }

  ghost function RemoveAll(m: Bins, rs: seq<Removal>): Bins
    requires Legal(m, rs)
    decreases |rs|, 1
  {
    if rs == [] then m
    else
      Redistribute(RemoveAll(m, rs[..|rs| - 1]), rs[|rs| - 1])
  }

  ghost function Indices(rs: seq<Removal>): set<int> {
    if rs == [] then {} else Indices(rs[..|rs| - 1]) + {rs[|rs| - 1].index}
  }

  /** One more removal extends a legal sequence. */
  lemma Extend(m: Bins, rs: seq<Removal>, r: Removal) returns (longer: seq<Removal>)
    requires Legal(m, rs) && r.index in RemoveAll(m, rs) && Neighbours(RemoveAll(m, rs), r)
    ensures longer == rs + [r] && Indices(longer) == Indices(rs) + {r.index}
    ensures Legal(m, longer) && RemoveAll(m, longer) == Redistribute(RemoveAll(m, rs), r)
  {
    longer := rs + [r];
    assert longer[..|rs|] == rs;
  }

  lemma RedistributeSound(m: Bins, r: Removal)
    requires r.index in m && Neighbours(m, r)
    ensures var n := Redistribute(m, r);
            && n.Keys == m.Keys - {r.index}
            && (forall k <- n :: m[k] <= n[k])
            && Total(m) - 1 <= Total(n) <= Total(m)
  {
    var c, n := m[r.index], m - {r.index};
    SharesBalance(c, r);
    TotalSplit(m, r.index);
    TotalPlus(n, r.lower, LowerShare(c, r));
    TotalPlus(Plus(n, r.lower, LowerShare(c, r)), r.upper, UpperShare(c, r));
  }

  /** For every order of removals: exactly the named buckets go, no surviving count drops, the sum never rises,
      and at most one count is lost per removed bucket. */
  lemma {:induction false} RemoveAllSound(m: Bins, rs: seq<Removal>)
    requires Legal(m, rs)
    ensures var n := RemoveAll(m, rs);
            && Indices(rs) <= m.Keys && |Indices(rs)| == |rs|
            && n.Keys == m.Keys - Indices(rs)
            && (forall k <- n :: m[k] <= n[k])
            && Total(m) - |rs| <= Total(n) <= Total(m)
  {
    if rs == [] {
    } else {
      var before, r := rs[..|rs| - 1], rs[|rs| - 1];
      RemoveAllSound(m, before);
      RedistributeSound(RemoveAll(m, before), r);
    }
  }

  /** Whether a removal loses a count to rounding. */
  ghost predicate Rounds(m: Bins, r: Removal)
    requires r.index in m && r.lower < r.index < r.upper
  {
    m[r.index] * (r.upper - r.index) % (r.upper - r.lower) != 0
  }

  /** How many removals of a sequence lose a count, each judged by the count its bucket has by then. */
  ghost function Inexact(m: Bins, rs: seq<Removal>): nat
    requires Legal(m, rs)
  {
    if rs == [] then 0
    else
      var before, r := rs[..|rs| - 1], rs[|rs| - 1];
      Inexact(m, before) + if Rounds(RemoveAll(m, before), r) then 1 else 0
  }

  lemma RedistributeLoss(m: Bins, r: Removal)
    requires r.index in m && r.lower < r.index < r.upper
    ensures Total(Redistribute(m, r)) == Total(m) - if Rounds(m, r) then 1 else 0
  {
    hide LowerShare, UpperShare, Total;
    var c, n := m[r.index], m - {r.index};
    SharesBalance(c, r);
    SharesExactIff(c, r);
    TotalSplit(m, r.index);
    TotalPlus(n, r.lower, LowerShare(c, r));
    TotalPlus(Plus(n, r.lower, LowerShare(c, r)), r.upper, UpperShare(c, r));
  }

  /** The exact loss of a whole collapse, for every order of removals: one count for each removal that needs rounding.
      So nothing is lost if and only if no removal does. */
  lemma {:induction false} ExactLoss(m: Bins, rs: seq<Removal>)
    requires Legal(m, rs)
    ensures Total(RemoveAll(m, rs)) == Total(m) - Inexact(m, rs)
  {
    hide Rounds, Redistribute, Total;
    if rs == [] {
    } else {
      var before, r := rs[..|rs| - 1], rs[|rs| - 1];
      ExactLoss(m, before);
      RedistributeLoss(RemoveAll(m, before), r);
    }
  }

  // ----- ranks -----

  lemma BelowSplit(m: Bins, i: int, k: int)
    requires i in m
    ensures Below(m, k) == Below(m - {i}, k) + if i < k then m[i] else 0
  {
    assert m == Plus(m - {i}, i, m[i]);
    BelowPlus(m - {i}, i, m[i], k);
  }

  /** As seen from index `k`, the counts below have not grown, and the counts up to it have not shrunk by more than what
      was lost in all. */
  ghost predicate RankKept(before: Bins, after: Bins, k: int) {
    && Below(after, k) <= Below(before, k)
    && Below(before, k + 1) - Below(after, k + 1) <= Total(before) - Total(after)
  }

  /** One removal moves counts to the nearest buckets only. So as seen from a bucket that stays, no count moves from
      above to below it or back; and what lies up to it shrinks by no more than the loss. */
  lemma RedistributeRanks(m: Bins, r: Removal, k: int)
    requires r.index in m && Neighbours(m, r) && k in m && k != r.index
    ensures RankKept(m, Redistribute(m, r), k)
  {
    hide LowerShare, UpperShare, Total, Below, Plus;
    var c, rest := m[r.index], m - {r.index};
    var p, q := LowerShare(c, r), UpperShare(c, r);
    SharesBalance(c, r);
    TotalSplit(m, r.index);
    TotalPlus(rest, r.lower, p);
    TotalPlus(Plus(rest, r.lower, p), r.upper, q);
    BelowSplit(m, r.index, k);
    BelowSplit(m, r.index, k + 1);
    BelowPlus(rest, r.lower, p, k);
    BelowPlus(rest, r.lower, p, k + 1);
    BelowPlus(Plus(rest, r.lower, p), r.upper, q, k);
    BelowPlus(Plus(rest, r.lower, p), r.upper, q, k + 1);
  }

  /** This holds as seen from every bucket of `after`. */
  ghost predicate RanksKept(before: Bins, after: Bins) {
    forall k <- after :: RankKept(before, after, k)
  }

  lemma RanksKeptTrans(a: Bins, b: Bins, c: Bins)
    requires RanksKept(a, b) && RanksKept(b, c) && c.Keys <= b.Keys
    ensures RanksKept(a, c)
  {
    hide Below, Total;
    forall k <- c ensures RankKept(a, c, k) {
      assert k in b;
      assert RankKept(a, b, k) && RankKept(b, c, k);
    }
  }

  lemma RanksKeptSelf(m: Bins)
    ensures RanksKept(m, m)
  {}

  lemma RedistributeKeeps(m: Bins, r: Removal)
    requires r.index in m && Neighbours(m, r)
    ensures RanksKept(m, Redistribute(m, r)) && Redistribute(m, r).Keys <= m.Keys
  {
    hide Below, Total, LowerShare, UpperShare;
    var n := Redistribute(m, r);
    assert n.Keys == m.Keys - {r.index};
    forall k <- n ensures RankKept(m, n, k) {
      RedistributeRanks(m, r, k);
    }
  }

  lemma {:induction false} RemoveAllRanks(m: Bins, rs: seq<Removal>)
    requires Legal(m, rs)
    ensures RanksKept(m, RemoveAll(m, rs))
  {
    hide Below, Total, Redistribute, RanksKept;
    if rs == [] {
      RanksKeptSelf(m);
    } else {
      var before, r := rs[..|rs| - 1], rs[|rs| - 1];
      var n := RemoveAll(m, before);
      RemoveAllRanks(m, before);
      RedistributeKeeps(n, r);
      RanksKeptTrans(m, n, Redistribute(n, r));
    }
  }

  lemma RankKeptPlus(before: Bins, after: Bins, i: int, c: nat, k: int)
    ensures RankKept(Plus(before, i, c), Plus(after, i, c), k) <==> RankKept(before, after, k)
  {
    hide Below, Total, Plus;
    TotalPlus(before, i, c);
    TotalPlus(after, i, c);
    BelowPlus(before, i, c, k);
    BelowPlus(before, i, c, k + 1);
    BelowPlus(after, i, c, k);
    BelowPlus(after, i, c, k + 1);
  }

  /** Adding to both keeps the ranks if and only if they are kept as seen from the index that is added to: so always
      for a bucket that was left, and for another index exactly when no collapse moved too much across it. */
  lemma AddKeepsRanksIff(before: Bins, after: Bins, i: int, c: nat)
    requires RanksKept(before, after)
    ensures RanksKept(Plus(before, i, c), Plus(after, i, c)) <==> RankKept(before, after, i)
    ensures i in after ==> RankKept(before, after, i)
  {
    hide RankKept;
    forall k ensures RankKept(Plus(before, i, c), Plus(after, i, c), k) <==> RankKept(before, after, k) {
      RankKeptPlus(before, after, i, c, k);
    }
    assert i in Plus(after, i, c);
  }

  const THREE: Bins := map[0 := 1, 2 := 2, 4 := 1]

  lemma BelowFirst(m: Bins)
    requires forall k <- m :: 0 <= k
    ensures Below(m, 1) == At(m, 0)
  {
    BelowStep(m, 0);
    BelowEnds(m, 0);
  }

  lemma RemoveFromThree()
    ensures Below(THREE, 1) == 1 && Below(Redistribute(THREE, Removal(2, 0, 4)), 1) == 2
  {
    hide Below, Total;
    var r := Removal(2, 0, 4);
    assert LowerShare(2, r) == 1 && UpperShare(2, r) == 1;
    BelowFirst(THREE);
    BelowFirst(Redistribute(THREE, r));
  }

  /** A removal from index 2 moves a count below index 1. A value that then comes to index 1 finds ranks not kept. */
  lemma RanksCrossed()
    ensures var r := Removal(2, 0, 4);
            && Neighbours(THREE, r) && RanksKept(THREE, Redistribute(THREE, r))
            && !RanksKept(Plus(THREE, 1, 1), Plus(Redistribute(THREE, r), 1, 1))
  {
    hide Below, Total, Plus, Redistribute, RanksKept;
    var r := Removal(2, 0, 4);
    var n := Redistribute(THREE, r);
    RedistributeKeeps(THREE, r);
    RemoveFromThree();
    assert !RankKept(THREE, n, 1);
    AddKeepsRanksIff(THREE, n, 1, 1);
  }

  // ----- collapses -----

  /** The buckets a collapse picks: low counts, but never the lowest or the highest bucket. */
  function LowCount(m: Bins, threshold: nat, lo: int, hi: int): set<int> {
    set k | k in m && m[k] <= threshold && k != lo && k != hi
  }

  lemma LowCountInside(m: Bins, threshold: nat, lo: int, hi: int)
    ensures LowCount(m, threshold, lo, hi) <= m.Keys - {lo, hi}
  {}

  /** `after` is a possible outcome of collapsing `before`; fewer than ten buckets are left alone. */
  ghost predicate CollapsesTo(before: Bins, after: Bins, threshold: nat, lo: int, hi: int) {
    if |before| < 10 then after == before
    else
      exists rs: seq<Removal> {:trigger RemoveAll(before, rs)} ::
        Legal(before, rs) && Indices(rs) == LowCount(before, threshold, lo, hi) && after == RemoveAll(before, rs)
  }

  /** No bucket strictly between the extremes has a low count. */
  ghost predicate NoneLow(m: Bins, threshold: nat) {
    forall k <- m :: m[k] <= threshold ==> (forall j <- m :: k <= j) || (forall j <- m :: j <= k)
  }

  lemma NoneLowIff(m: Bins, threshold: nat, lo: int, hi: int)
    requires Extremes(m, lo, hi)
    ensures LowCount(m, threshold, lo, hi) == {} <==> NoneLow(m, threshold)
  {
    forall k <- m
      ensures k in LowCount(m, threshold, lo, hi) <==>
              !(m[k] <= threshold ==> (forall j <- m :: k <= j) || (forall j <- m :: j <= k))
    {}
  }

  /** Few enough buckets to be left alone, or none that a collapse would remove. */
  ghost predicate Spared(m: Bins, limit: nat, threshold: nat) {
    |m| <= limit || NoneLow(m, threshold)
  }

  /** Every outcome of a collapse keeps the extremes, loses at most one count per removed bucket, and never
      gains any. */
  lemma CollapseSound(before: Bins, after: Bins, threshold: nat, lo: int, hi: int)
    requires CollapsesTo(before, after, threshold, lo, hi)
    requires Extremes(before, lo, hi) && Positive(before)
    ensures Extremes(after, lo, hi) && Positive(after)
    ensures after.Keys <= before.Keys
    ensures |before| >= 10 ==> after.Keys == before.Keys - LowCount(before, threshold, lo, hi)
    ensures forall k <- after :: before[k] <= after[k]
    ensures Total(before) - |LowCount(before, threshold, lo, hi)| <= Total(after) <= Total(before)
  {
    if |before| >= 10 {
      var rs: seq<Removal> :| Legal(before, rs) && Indices(rs) == LowCount(before, threshold, lo, hi) &&
        after == RemoveAll(before, rs);
      RemoveAllSound(before, rs);
    }
  }

  /** Ten buckets, the sixth of them low. */
  const TEN: Bins := map[0 := 11, 1 := 11, 2 := 11, 3 := 11, 4 := 11, 5 := 1, 6 := 11, 7 := 11, 8 := 11, 9 := 11]

  lemma LowOfTen()
    ensures 5 in TEN && TEN[5] == 1 && |TEN| == 10 && LowCount(TEN, 10, 0, 9) == {5}
    ensures Neighbours(TEN, Removal(5, 4, 6))
  {}

  lemma PlusNothing(m: Bins, i: int)
    requires i in m
    ensures Plus(m, i, 0) == m
  {}

  lemma RemoveFromTen()
    ensures Redistribute(TEN, Removal(5, 4, 6)) == TEN - {5}
  {
    assert LowerShare(1, Removal(5, 4, 6)) == UpperShare(1, Removal(5, 4, 6)) == 0;
    PlusNothing(TEN - {5}, 4);
    PlusNothing(TEN - {5}, 6);
  }

  lemma LegalOne(m: Bins, r: Removal) returns (rs: seq<Removal>)
    requires r.index in m && Neighbours(m, r)
    ensures Legal(m, rs) && RemoveAll(m, rs) == Redistribute(m, r) && Indices(rs) == {r.index}
  {
    rs := Extend(m, [], r);
  }

  /** A collapse that loses a count: both halves of the single count of bucket 5 round down to nothing. */
  lemma LossyCollapse()
    ensures CollapsesTo(TEN, TEN - {5}, 10, 0, 9) && Total(TEN - {5}) == Total(TEN) - 1
  {
    hide Legal, RemoveAll, Indices, Total, LowCount, Redistribute, Neighbours;
    LowOfTen();
    RemoveFromTen();
    var rs := LegalOne(TEN, Removal(5, 4, 6));
    assert TEN - {5} == RemoveAll(TEN, rs);
    TotalSplit(TEN, 5);
  }

  /** Buckets strictly between the extremes, and counts, may be missing. */
  ghost predicate Thinned(before: Bins, after: Bins) {
    && after.Keys <= before.Keys
    && Total(after) <= Total(before)
    && (|before| > 0 ==> exists lo, hi :: Extremes(before, lo, hi) && Extremes(after, lo, hi))
  }

  /** No count of a bucket that is left has dropped. */
  ghost predicate Grows(before: Bins, after: Bins) {
    forall k <- after :: k in before && before[k] <= after[k]
  }

  /** What collapses do to buckets: drop some strictly between the extremes, lose at most one count for each of them,
      take nothing off the others, and keep the ranks as seen from those. */
  ghost predicate Reduced(before: Bins, after: Bins) {
    && Thinned(before, after)
    && 0 <= Total(before) - Total(after) <= |before| - |after|
    && |after| < |before|
    && Grows(before, after)
    && RanksKept(before, after)
  }

  /** `after` is `before` itself when nothing collapses, and a reduction of it, with fewer buckets, otherwise. */
  ghost predicate Becomes(before: Bins, after: Bins, exact: bool) {
    if exact then after == before else Reduced(before, after)
  }

  /** The same without the ranks: what is left when buckets are added one by one while others collapse. */
  ghost predicate Thins(before: Bins, after: Bins, exact: bool) {
    if exact then after == before else Thinned(before, after)
  }

  lemma BecomesThins(before: Bins, after: Bins, exact: bool)
    requires Becomes(before, after, exact)
    ensures Thins(before, after, exact)
  {}

  lemma NothingRemoved(m: Bins, rs: seq<Removal>)
    requires Legal(m, rs) && Indices(rs) == {}
    ensures RemoveAll(m, rs) == m
  {}

  lemma RemovedCount(before: Bins, after: Bins, low: set<int>)
    requires low <= before.Keys && after.Keys == before.Keys - low
    ensures |low| == |before| - |after|
  {
    assert |before.Keys - low| == |before.Keys| - |low|;
  }

  /** A collapse changes nothing if and only if there is no low bucket between the extremes. */
  lemma CollapseReduces(before: Bins, after: Bins, threshold: nat, lo: int, hi: int)
    requires CollapsesTo(before, after, threshold, lo, hi) && Positive(before) && Extremes(before, lo, hi)
    requires |before| >= 10
    ensures Becomes(before, after, NoneLow(before, threshold))
  {
    hide Legal, RemoveAll, Indices, Total, RanksKept, NoneLow;
    CollapseSound(before, after, threshold, lo, hi);
    NoneLowIff(before, threshold, lo, hi);
    var low := LowCount(before, threshold, lo, hi);
    var rs: seq<Removal> :| Legal(before, rs) && Indices(rs) == low && after == RemoveAll(before, rs);
    RemoveAllRanks(before, rs);
    RemovedCount(before, after, low);
    if low == {} {
      NothingRemoved(before, rs);
    }
  }

  lemma ThinnedTrans(a: Bins, b: Bins, c: Bins)
    requires Thinned(a, b) && Thinned(b, c)
    ensures Thinned(a, c)
  {
    hide Total;
    if |a| > 0 {
      var lo, hi :| Extremes(a, lo, hi) && Extremes(b, lo, hi);
      var l, h :| Extremes(b, l, h) && Extremes(c, l, h);
      assert l == lo && h == hi;
    }
  }

  lemma ThinsTrans(a: Bins, b: Bins, c: Bins, x: bool, y: bool)
    requires Thins(a, b, x) && Thins(b, c, y)
    ensures Thins(a, c, x && y)
  {
    hide Thinned;
    if !x && !y {
      ThinnedTrans(a, b, c);
    }
  }

  lemma GrowsTrans(a: Bins, b: Bins, c: Bins)
    requires Grows(a, b) && Grows(b, c)
    ensures Grows(a, c)
  {}

  lemma ThinnedKeys(before: Bins, after: Bins)
    requires Thinned(before, after)
    ensures after.Keys <= before.Keys
  {}

  lemma BecomesTrans(a: Bins, b: Bins, c: Bins, x: bool, y: bool)
    requires Becomes(a, b, x) && Becomes(b, c, y)
    ensures Becomes(a, c, x && y)
  {
    hide Thinned, RanksKept, Total, Grows;
    if !x && !y {
      ThinnedTrans(a, b, c);
      assert c.Keys <= b.Keys by { ThinnedKeys(b, c); }
      RanksKeptTrans(a, b, c);
      GrowsTrans(a, b, c);
    }
  }

  /** Adding the same count before or after buckets are thinned comes to the same. */
  lemma ThinsPlus(a: Bins, b: Bins, exact: bool, k: int, c: nat)
    requires Thins(a, b, exact)
    ensures Thins(Plus(a, k, c), Plus(b, k, c), exact)
  {
    hide Total;
    if !exact {
      TotalPlus(a, k, c);
      TotalPlus(b, k, c);
      var lo, hi := k, k;
      if |a| > 0 {
        lo, hi :| Extremes(a, lo, hi) && Extremes(b, lo, hi);
      }
      var l, h := if k < lo then k else lo, if k > hi then k else hi;
      assert Extremes(Plus(a, k, c), l, h) && Extremes(Plus(b, k, c), l, h);
    }
  }
}

/** store.go SparseStore: a map of bins that collapses low-count buckets when it grows large. */
module SparseStores {
  import opened Buckets
  import opened Collapse
  import opened LogMapping
  import opened Ranging
  import opened StoreSpec

  /** The density of a sparse store with these buckets: their share of the indices from lowest to highest. */
  ghost function SparseDensity(m: Bins): real {
    if lo, hi :| Extremes(m, lo, hi) && lo < hi then |m| as real / (hi - lo + 1) as real else 0.0
  }

  lemma SparseDensityBounds(m: Bins, lo: int, hi: int, hasElements: bool)
    requires Bounds(m, lo, hi, hasElements)
    ensures SparseDensity(m) ==
            if !hasElements || hi <= lo then 0.0 else |m| as real / (hi - lo + 1) as real
  {
    if hasElements {
      forall l, h | Extremes(m, l, h) ensures l == lo && h == hi {
        ExtremesUnique(m, lo, hi, l, h);
      }
    }
  }

  lemma UnionSize(a: Bins, b: Bins)
    ensures |Union(a, b)| >= |b|
  {
    assert Union(a, b).Keys == b.Keys + (a.Keys - b.Keys);
  }

  /** The indices from `lo` up to but not including `hi`. */
  ghost function Interval(lo: int, hi: int): set<int>
    decreases hi - lo
  {
    if hi <= lo then {} else Interval(lo, hi - 1) + {hi - 1}
  }

  lemma {:induction false} IntervalIs(lo: int, hi: int)
    requires lo <= hi
    ensures |Interval(lo, hi)| == hi - lo && forall i :: i in Interval(lo, hi) <==> lo <= i < hi
    decreases hi - lo
  {
    if lo == hi {
    } else {
      IntervalIs(lo, hi - 1);
    }
  }

  lemma RatioBounds(a: int, b: int)
    requires 0 < a <= b
    ensures 0.0 < a as real / b as real <= 1.0 && (a as real / b as real == 1.0 <==> a == b)
  {
    var x, y := a as real, b as real;
    assert x / y * y == x;
  }

  /** A sparse store of more than one index has density 1 if and only if every index from lowest to highest has a
      bucket; otherwise it has less. */
  lemma FullIffContiguous(m: Bins, lo: int, hi: int)
    requires Extremes(m, lo, hi) && lo < hi
    ensures 0.0 < SparseDensity(m) <= 1.0
    ensures SparseDensity(m) == 1.0 <==> forall i :: lo <= i <= hi ==> i in m
  {
    hide SparseDensity;
    SparseDensityBounds(m, lo, hi, true);
    var range := Interval(lo, hi + 1);
    IntervalIs(lo, hi + 1);
    forall k <- m ensures k in range {}
    var missing := range - m.Keys;
    assert range == m.Keys + missing && |range| == |m.Keys| + |missing|;
    assert lo in m.Keys;
    RatioBounds(|m|, hi - lo + 1);
    if missing == {} {
      forall i | lo <= i <= hi ensures i in m {
        assert i in range;
      }
    }
    if forall i :: lo <= i <= hi ==> i in m {
      assert missing == {};
    }
  }

  /** Buckets that others were merged into have extremes, and are no fewer than those. */
  lemma HasExtremes(sum: Bins, other: Bins, before: Bins, total: nat, lo: int, hi: int, hasElements: bool)
    requires sum == Union(before, other) && |other| > 0 && Sound(sum, total) && Bounds(sum, lo, hi, hasElements)
    ensures Positive(sum) && Extremes(sum, lo, hi) && |sum| >= |other|
  {
    var k := AnyKey(other);
    assert k in sum;
    UnionSize(before, other);
  }

  class SparseStore {
    var bins: Bins
    var count: nat
    var minIndex: int
    var maxIndex: int
    var hasElements: bool
    const collapseThreshold: nat

    ghost predicate Valid()
      reads this
    {
      && Sound(bins, count)
      && Bounds(bins, minIndex, maxIndex, hasElements)
    }

    constructor (collapseThreshold: nat)
      ensures Valid() && bins == map[] && count == 0
      ensures this.collapseThreshold == collapseThreshold
    {
      bins, count := map[], 0;
      minIndex, maxIndex, hasElements := MAX_INT32, MIN_INT32, false;
      this.collapseThreshold := collapseThreshold;
    }

    method Clear()
      modifies this
      ensures Valid() && bins == map[] && count == 0
    {
      bins, count := map[], 0;
      minIndex, maxIndex, hasElements := MAX_INT32, MIN_INT32, false;
    }

    /** The nearest buckets on both sides of a removed one. */
    method FindNeighbours(index: int, ghost lo: int, ghost hi: int) returns (lower: int, upper: int)
      requires index in bins && lo in bins && hi in bins && lo < index < hi
      requires forall k <- bins :: MIN_INT32 < k < MAX_INT32
      ensures Neighbours(bins, Removal(index, lower, upper))
    {
      lower, upper := MIN_INT32, MAX_INT32;
      var todo := bins.Keys - {index};
      while todo != {}
        invariant todo <= bins.Keys
        invariant lower < index < upper
        invariant lower == MIN_INT32 || lower in bins
        invariant upper == MAX_INT32 || upper in bins
        invariant forall k <- bins :: k in todo || k <= lower || k == index || upper <= k
      {
        var k := Pick(todo);
        todo := todo - {k};
        if k < index && k > lower { lower := k; }
        if k > index && k < upper { upper := k; }
      }
    }

    method RemoveOne(index: int, ghost lo: int, ghost hi: int) returns (r: Removal)
      requires index in bins && lo in bins && hi in bins && lo < index < hi
      requires forall k <- bins :: MIN_INT32 < k < MAX_INT32
      modifies this`bins
      ensures r.index == index && Neighbours(old(bins), r) && bins == Redistribute(old(bins), r)
      ensures bins.Keys == old(bins.Keys) - {index}
    {
      var lower, upper := FindNeighbours(index, lo, hi);
      r := Removal(index, lower, upper);
      if lower != MIN_INT32 && upper != MAX_INT32 {
        bins := Redistribute(bins, r);
      } else {
        // The three fallback branches: never taken, because the lowest and highest buckets are never removed.
        assert false;
      }
    }

    /** The removal loop: each bucket's current count goes to the nearest buckets left on both sides. */
    method RemoveLow(low: set<int>) returns (ghost rs: seq<Removal>)
      requires Extremes(bins, minIndex, maxIndex) && forall k <- bins :: MIN_INT32 < k < MAX_INT32
      requires low <= bins.Keys - {minIndex, maxIndex}
      modifies this`bins
      ensures Legal(old(bins), rs) && bins == RemoveAll(old(bins), rs) && Indices(rs) == low
    {
      ghost var before := bins;
      var toRemove := low;
      rs := [];
      while toRemove != {}
        invariant toRemove <= bins.Keys <= before.Keys
        invariant minIndex in bins && maxIndex in bins
        invariant Legal(before, rs) && bins == RemoveAll(before, rs)
        invariant Indices(rs) + toRemove == low
      {
        var index := Pick(toRemove);
        toRemove := toRemove - {index};
        var r := RemoveOne(index, minIndex, maxIndex);
        rs := Extend(before, rs, r);
      }
    }

    method RecalculateMinMax()
      requires Sound(bins, count)
      modifies this`minIndex, this`maxIndex, this`hasElements
      ensures Bounds(bins, minIndex, maxIndex, hasElements)
    {
      minIndex, maxIndex := MAX_INT32, MIN_INT32;
      if |bins| == 0 {
        hasElements := false;
        return;
      }
      var todo := bins.Keys;
      while todo != {}
        invariant todo <= bins.Keys
        invariant forall k <- bins :: k in todo || minIndex <= k <= maxIndex
        invariant todo != bins.Keys ==> minIndex in bins && maxIndex in bins
        invariant todo == bins.Keys ==> minIndex == MAX_INT32 && maxIndex == MIN_INT32
      {
        var k := Pick(todo);
        todo := todo - {k};
        if k < minIndex { minIndex := k; }
        if k > maxIndex { maxIndex := k; }
      }
      hasElements := true;
    }

    /** Collapses low-count buckets, for every order in which Go may range over the map. */
    method CollapseBuckets()
      requires Valid()
      modifies this
      ensures Valid() && count == old(count) && minIndex == old(minIndex) && maxIndex == old(maxIndex)
      ensures CollapsesTo(old(bins), bins, collapseThreshold, minIndex, maxIndex)
    {
      if |bins| < 10 {
        return;
      }
      hide Legal, RemoveAll, Indices, Total, LowCount;
      ghost var before := bins;
      LowCountInside(bins, collapseThreshold, minIndex, maxIndex);
      ghost var rs := RemoveLow(LowCount(bins, collapseThreshold, minIndex, maxIndex));
      assert CollapsesTo(before, bins, collapseThreshold, minIndex, maxIndex) by {
        assert bins == RemoveAll(before, rs);
      }
      CollapseSound(before, bins, collapseThreshold, minIndex, maxIndex);
      RecalculateMinMax();
    }

    /** Adds `c` at `index`; above 1000 buckets the result is collapsed, which changes something if and only if there is
        a low bucket between the extremes. */
    method Add(index: int, c: nat)
      requires Valid() && c > 0 && MIN_INT32 < index < MAX_INT32
      modifies this
      ensures Valid() && count == old(count) + c
      ensures var sum := Plus(old(bins), index, c);
              && (|sum| > 1000 ==> CollapsesTo(sum, bins, collapseThreshold, minIndex, maxIndex))
              && Becomes(sum, bins, Spared(sum, 1000, collapseThreshold))
    {
      hide Plus, Total, Extremes, CollapsesTo, Reduced, NoneLow;
      PlusSound(bins, count, index, c);
      BoundsPlus(bins, minIndex, maxIndex, index, c);
      bins := Plus(bins, index, c);
      count := count + c;
      if index < minIndex { minIndex := index; }
      if index > maxIndex { maxIndex := index; }
      hasElements := true;
      if |bins| > 1000 {
        ghost var sum := bins;
        CollapseBuckets();
        CollapseReduces(sum, bins, collapseThreshold, minIndex, maxIndex);
      }
    }

    /** The merge loop, in any order of the other store's buckets. */
    method MergeBins(other: Bins)
      requires Bounds(bins, minIndex, maxIndex, |bins| > 0)
      requires forall k <- other :: MIN_INT32 < k < MAX_INT32
      modifies this`bins, this`minIndex, this`maxIndex
      ensures bins == Union(old(bins), other)
      ensures Bounds(bins, minIndex, maxIndex, |bins| > 0)
    {
      hide Extremes, Union, Plus, Bounds;
      ghost var before, items := bins, [];
      var todo := other.Keys;
      while todo != {}
        invariant todo <= other.Keys && Enumerates(items, other - todo)
        invariant bins == AddAll(before, items)
        invariant Bounds(bins, minIndex, maxIndex, |bins| > 0)
      {
        var k := Pick(todo);
        BoundsPlus(bins, minIndex, maxIndex, k, other[k]);
        items := NextItem(before, items, other, todo, k);
        todo := todo - {k};
        bins := Plus(bins, k, other[k]);
        if k < minIndex { minIndex := k; }
        if k > maxIndex { maxIndex := k; }
      }
      AddAllIsUnion(before, items, other - todo);
      NothingLeft(other, todo);
    }

    /** Adds another store, given by its non-empty buckets and its total, in any order of its buckets; merging
        more than 100 buckets collapses the result, with the same effect. */
    method Merge(other: Bins, total: nat)
      requires Valid() && Sound(other, total)
      modifies this
      ensures Valid() && count == old(count) + total
      ensures var sum := Union(old(bins), other);
              && (|other| > 100 ==> CollapsesTo(sum, bins, collapseThreshold, minIndex, maxIndex))
              && Becomes(sum, bins, |other| <= 100 || NoneLow(sum, collapseThreshold))
    {
      hide Union, Bounds, Total, Sound, Positive, CollapsesTo, Reduced, NoneLow;
      SoundParts(other, total);
      MergedFlag(bins, count, other, total, minIndex, maxIndex, hasElements);
      MergeBins(other);
      count := count + total;
      if count > 0 {
        hasElements := true;
      }
      if |other| > 100 {
        ghost var sum := bins;
        HasExtremes(sum, other, old(bins), count, minIndex, maxIndex, hasElements);
        CollapseBuckets();
        CollapseReduces(sum, bins, collapseThreshold, minIndex, maxIndex);
      }
    }

    /** A deep copy: a new object with the same contents. */
    method Copy() returns (s: SparseStore)
      requires Valid()
      ensures fresh(s) && s.Valid()
      ensures s.bins == bins && s.count == count && s.collapseThreshold == collapseThreshold
    {
      s := new SparseStore(collapseThreshold);
      s.count, s.minIndex, s.maxIndex, s.hasElements := count, minIndex, maxIndex, hasElements;
      s.bins := bins;
    }

    /** The share of the indices from minIndex to maxIndex that have a bucket. */
    method Density() returns (d: real)
      requires Valid()
      ensures d == SparseDensity(bins)
    {
      SparseDensityBounds(bins, minIndex, maxIndex, hasElements);
      if !hasElements || maxIndex <= minIndex {
        return 0.0;
      }
      var width := maxIndex - minIndex + 1;
      d := |bins| as real / width as real;
    }
  }
}

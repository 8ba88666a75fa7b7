/** What the two bucket stores have in common. */
module StoreSpec {
  import opened Buckets
  import opened LogMapping

  /** What any store hands out through the Store interface: positive buckets at int32 indices whose counts sum
      to at most the total (a collapse may lose some), and a zero total when there is no bucket. */
  ghost predicate Sound(m: Bins, total: nat) {
    && Positive(m)
    && Total(m) <= total
    && (|m| == 0 ==> total == 0)
    && forall k <- m :: MIN_INT32 < k < MAX_INT32
  }

  lemma SoundParts(m: Bins, total: nat)
    requires Sound(m, total)
    ensures Positive(m) && forall k <- m :: MIN_INT32 < k < MAX_INT32
  {}

  lemma UnionSound(a: Bins, x: nat, b: Bins, y: nat)
    requires Sound(a, x) && Sound(b, y)
    ensures Sound(Union(a, b), x + y)
  {
    TotalUnion(a, b);
    if |a| > 0 {
      var k := AnyKey(a);
      assert k in Union(a, b);
    }
    if |b| > 0 {
      var k := AnyKey(b);
      assert k in Union(a, b);
    }
  }

  lemma PlusSound(m: Bins, total: nat, i: int, c: nat)
    requires Sound(m, total) && c > 0 && MIN_INT32 < i < MAX_INT32
    ensures Sound(Plus(m, i, c), total + c)
  {
    TotalPlus(m, i, c);
  }

  lemma SoundEmpty(m: Bins, total: nat)
    requires Sound(m, total)
    ensures total == 0 <==> |m| == 0
  {
    if |m| > 0 {
      var k := AnyKey(m);
      TotalSplit(m, k);
    }
  }

  /** The min and max fields of a store: the exact extremes, or the sentinels of an empty store. */
  ghost predicate Bounds(m: Bins, lo: int, hi: int, hasElements: bool) {
    && hasElements == (|m| > 0)
    && (if hasElements then Extremes(m, lo, hi) else lo == MAX_INT32 && hi == MIN_INT32)
  }

  lemma ExtremesUnique(m: Bins, lo: int, hi: int, l: int, h: int)
    requires Extremes(m, lo, hi) && Extremes(m, l, h)
    ensures l == lo && h == hi
  {}

  /** The flag after a merge: there are elements exactly when the total is positive. */
  lemma MergedFlag(a: Bins, x: nat, b: Bins, y: nat, lo: int, hi: int, hasElements: bool)
    requires Sound(a, x) && Sound(b, y) && Bounds(a, lo, hi, hasElements)
    ensures Sound(Union(a, b), x + y) && Bounds(a, lo, hi, |a| > 0)
    ensures (if x + y > 0 then true else hasElements) == (|Union(a, b)| > 0)
  {
    hide Sound, Union, Extremes;
    UnionSound(a, x, b, y);
    SoundEmpty(a, x);
    SoundEmpty(Union(a, b), x + y);
  }

  lemma BoundsPlus(m: Bins, lo: int, hi: int, k: int, c: nat)
    requires Bounds(m, lo, hi, |m| > 0) && MIN_INT32 < k < MAX_INT32
    ensures var n := Plus(m, k, c);
            Bounds(n, if k < lo then k else lo, if k > hi then k else hi, |n| > 0) && |n| > 0
  {
    var n := Plus(m, k, c);
    assert k in n;
    if |m| == 0 {
      assert n.Keys == {k};
    }
  }
}

/** The abstract value of a bucket store: a finite map from bucket index to a positive count. */
module Buckets {

  type Bins = map<int, nat>

  ghost predicate Positive(m: Bins) {
    forall k <- m :: m[k] > 0
  }

  lemma AnyKey<K, V>(m: map<K, V>) returns (k: K)
    requires |m| > 0
    ensures k in m
  {
    k :| k in m;
  }

  /** The count at an index, 0 where there is no bucket. */
  function At(m: Bins, i: int): nat {
    if i in m then m[i] else 0
  }

  /** `m` with `c` more at index `i`. */
  function Plus(m: Bins, i: int, c: nat): Bins {
    m[i := At(m, i) + c]
  }

  /** Pointwise addition. */
  function Union(a: Bins, b: Bins): Bins {
    map k | k in a.Keys + b.Keys :: At(a, k) + At(b, k)
  }

  /** Adds a list of (index, count) items one after the other. */
  ghost function AddAll(m: Bins, items: seq<(int, nat)>): Bins {
    if items == [] then m
    else
      var (k, c) := items[|items| - 1];
      Plus(AddAll(m, items[..|items| - 1]), k, c)
  }

  /** `items` lists every bucket of `m` once, in some order. */
  ghost predicate Enumerates(items: seq<(int, nat)>, m: Bins) {
    if items == [] then |m| == 0
    else
      var (k, c) := items[|items| - 1];
      k in m && m[k] == c && Enumerates(items[..|items| - 1], m - {k})
  }

  lemma UnionEmpty(a: Bins)
    ensures Union(a, map[]) == a
  {}

  lemma UnionPlus(a: Bins, b: Bins, k: int, c: nat)
    ensures Plus(Union(a, b), k, c) == Union(a, Plus(b, k, c))
  {}

  lemma PlusIsUnion(m: Bins, i: int, c: nat)
    ensures Plus(m, i, c) == Union(m, map[i := c])
  {}

  /** One more bucket taken from the ones left to do. */
  lemma NextItem(before: Bins, items: seq<(int, nat)>, m: Bins, todo: set<int>, k: int)
    returns (longer: seq<(int, nat)>)
    requires k in todo && todo <= m.Keys && Enumerates(items, m - todo)
    ensures longer == items + [(k, m[k])] && Enumerates(longer, m - (todo - {k}))
    ensures AddAll(before, longer) == Plus(AddAll(before, items), k, m[k])
  {
    longer := items + [(k, m[k])];
    assert longer[..|items|] == items;
    assert (m - (todo - {k})) - {k} == m - todo;
  }

  lemma {:induction false} EnumeratesLength(items: seq<(int, nat)>, m: Bins)
    requires Enumerates(items, m)
    ensures |items| == |m|
  {
    if items == [] {
    } else {
      var (k, c) := items[|items| - 1];
      EnumeratesLength(items[..|items| - 1], m - {k});
      assert m == (m - {k})[k := c];
    }
  }

  lemma NothingLeft(m: Bins, todo: set<int>)
    requires todo == {}
    ensures m - todo == m
  {}

  lemma UnionSplit(a: Bins, b: Bins, k: int)
    requires k in b
    ensures Union(a, b) == Plus(Union(a, b - {k}), k, b[k])
  {}

  /** Adding all buckets of `m`, in whatever order, is pointwise addition. */
  lemma {:induction false} AddAllIsUnion(before: Bins, items: seq<(int, nat)>, m: Bins)
    requires Enumerates(items, m)
    ensures AddAll(before, items) == Union(before, m)
  {
    if items == [] {
      assert Union(before, m) == before;
    } else {
      var (k, c) := items[|items| - 1];
      AddAllIsUnion(before, items[..|items| - 1], m - {k});
      UnionSplit(before, m, k);
    }
  }

  /** `lo` and `hi` are the lowest and the highest index in use. */
  ghost predicate Extremes(m: Bins, lo: int, hi: int) {
    && lo in m && hi in m
    && forall k <- m :: lo <= k <= hi
  }

  /** The sum of all counts. */
  ghost function Total(m: Bins): nat
    decreases |m|
  {
    if k :| k in m then m[k] + Total(m - {k}) else 0
  }

  /** Any bucket may be split off first. */
  lemma {:induction false} TotalSplit(m: Bins, k: int)
    requires k in m
    ensures Total(m) == m[k] + Total(m - {k})
    decreases |m|
  {
    var j :| j in m && Total(m) == m[j] + Total(m - {j});
    if j != k {
      TotalSplit(m - {j}, k);
      TotalSplit(m - {k}, j);
      assert m - {j} - {k} == m - {k} - {j};
    }
  }

  lemma TotalPlus(m: Bins, i: int, c: nat)
    ensures Total(Plus(m, i, c)) == Total(m) + c
  {
    var p := Plus(m, i, c);
    TotalSplit(p, i);
    if i in m {
      TotalSplit(m, i);
      assert p - {i} == m - {i};
    } else {
      assert p - {i} == m;
    }
  }

  lemma {:induction false} TotalUnion(a: Bins, b: Bins)
    ensures Total(Union(a, b)) == Total(a) + Total(b)
    decreases |b|
  {
    if k :| k in b {
      TotalSplit(b, k);
      TotalUnion(a, b - {k});
      TotalPlus(Union(a, b - {k}), k, b[k]);
      UnionSplit(a, b, k);
    } else {
      assert Union(a, b) == a;
    }
  }

  function BinsBelow(m: Bins, i: int): Bins {
    map k | k in m && k < i :: m[k]
  }

  /** The sum of the counts at indices below `i`. */
  ghost function Below(m: Bins, i: int): nat {
    Total(BinsBelow(m, i))
  }

  lemma BelowStep(m: Bins, i: int)
    ensures Below(m, i + 1) == Below(m, i) + At(m, i)
  {
    var n := BinsBelow(m, i + 1);
    if i in m {
      TotalSplit(n, i);
      assert n - {i} == BinsBelow(m, i);
    } else {
      assert n == BinsBelow(m, i);
    }
  }

  lemma {:induction false} BelowMonotone(m: Bins, i: int, j: int)
    requires i <= j
    ensures Below(m, i) <= Below(m, j)
    decreases j - i
  {
    if i < j {
      BelowMonotone(m, i, j - 1);
      BelowStep(m, j - 1);
    }
  }

  lemma BelowEnds(m: Bins, i: int)
    ensures (forall k <- m :: i <= k) ==> Below(m, i) == 0
    ensures (forall k <- m :: k < i) ==> Below(m, i) == Total(m)
  {
    if forall k <- m :: i <= k {
      assert BinsBelow(m, i) == map[];
    }
    if forall k <- m :: k < i {
      assert BinsBelow(m, i) == m;
    }
  }

  lemma {:induction false} BelowAtMostTotal(m: Bins, i: int)
    ensures Below(m, i) <= Total(m)
    decreases |m|
  {
    if k :| k in m && i <= k {
      BelowAtMostTotal(m - {k}, i);
      assert BinsBelow(m - {k}, i) == BinsBelow(m, i);
      TotalSplit(m, k);
    } else {
      BelowEnds(m, i);
    }
  }

  lemma BelowPlus(m: Bins, k: int, c: nat, i: int)
    ensures Below(Plus(m, k, c), i) == Below(m, i) + (if k < i then c else 0)
  {
    if k < i {
      assert BinsBelow(Plus(m, k, c), i) == Plus(BinsBelow(m, i), k, c);
      TotalPlus(BinsBelow(m, i), k, c);
    } else {
      assert BinsBelow(Plus(m, k, c), i) == BinsBelow(m, i);
    }
  }
}

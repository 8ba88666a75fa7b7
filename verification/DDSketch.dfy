/** ddsketch.go: the sketch object, its active store and its two stand-by stores. */
module DDSketches {
  import opened Buckets
  import opened Collapse
  import opened DenseStores
  import opened LogMapping
  import opened Options
  import opened SketchAnswers
  import opened SketchSpec
  import opened SparseStores
  import opened StoreSpec
  import opened Stores

  const SECOND: int := 1_000_000_000

  /** config.go DDSketchConfig. */
  datatype Config = Config(relativeAccuracy: real, minValue: real, maxValue: real, initialCapacity: nat,
                           useSparseStore: bool, collapseThreshold: nat, autoSwitch: bool, switchThreshold: real)
  {
    function Empty(): Sketch {
      Sketch(relativeAccuracy, minValue, maxValue, map[], 0, 0.0, PosInf, NegInf)
    }
  }

  /** config.go DefaultConfig. */
  const DEFAULT_CONFIG: Config := Config(0.0075, 0.000000001, 1000000000.0, 128, true, 10, true, 0.5)

  lemma ProductAtLeast(z: real, p: real, q: real, x: real, y: real)
    requires Times(z, p, q) && p >= x > 0.0 && q >= y > 0.0
    ensures z >= x * y
  {
    assert p * q >= x * q;
    assert x * q >= x * y;
  }

  lemma Square(n: nat, x: real, y: real)
    requires Pow(1.0075, n) >= x > 0.0 && x * x >= y
    ensures Pow(1.0075, n + n) >= y
  {
    hide Pow, Times;
    PowAdd(1.0075, n, n);
    ProductAtLeast(Pow(1.0075, n + n), Pow(1.0075, n), Pow(1.0075, n), x, x);
  }

  lemma DefaultPower()
    ensures Pow(1.0075, 10000) >= 1000000000.0
  {
    hide Pow, Times;
    Bernoulli(1.0075, 1000);
    Square(1000, 8.5, 72.0);
    Square(2000, 72.0, 5000.0);
    Square(4000, 5000.0, 20000000.0);
    PowAdd(1.0075, 8000, 2000);
    ProductAtLeast(Pow(1.0075, 10000), Pow(1.0075, 8000), Pow(1.0075, 2000), 20000000.0, 72.0);
  }

  /** The default configuration is fine: its bucket indices lie between -10000 and 10000. */
  lemma DefaultConfigured()
    ensures DEFAULT_CONFIG.Empty().Configured()
  {
    var b, s := 1.0075, DEFAULT_CONFIG.Empty();
    DefaultPower();
    IndexRange(b, 10000, 1000000000.0, s.minValue);
    IndexRange(b, 10000, 1000000000.0, s.maxValue);
  }

  ghost predicate Statistics(count: nat, sum: real, min: Ext, max: Ext) {
    && sum >= 0.0
    && (if count == 0 then min == PosInf && max == NegInf && sum == 0.0 else min.Fin? && max.Fin?)
  }

  /** The statistics of a reachable sketch: sound buckets, and finite extremes once there is a value. */
  ghost predicate Consistent(s: Sketch) {
    Sound(s.bins, s.count) && Statistics(s.count, s.sum, s.min, s.max)
  }

  /** The time of the last check: now, if a second has passed. */
  function Due(now: int, last: int): int {
    if now - last >= SECOND then now else last
  }

  /** Whether a store switch is decided: sparse stores leave at a high density, dense ones at a low density. */
  predicate Switches(sparse: bool, density: real, threshold: real) {
    if sparse then density > threshold else density < threshold / 2.0
  }

  /** Stores of either kind stay exactly between half the threshold and the threshold, so no density makes them go
      back and forth. A higher density only makes sparse ones leave, a lower one only dense ones. */
  lemma SwitchBand(density: real, higher: real, threshold: real)
    requires threshold > 0.0 && density <= higher
    ensures !Switches(true, density, threshold) && !Switches(false, density, threshold) <==>
            threshold / 2.0 <= density <= threshold
    ensures Switches(true, density, threshold) ==> Switches(true, higher, threshold)
    ensures Switches(false, higher, threshold) ==> Switches(false, density, threshold)
  {}

  /** A sketch with values has buckets, so the source's second test for an empty sketch never succeeds. */
  lemma HasBuckets(s: Sketch)
    requires Consistent(s) && s.count > 0
    ensures |s.bins| > 0
  {}

  lemma SameConfiguration(s: Sketch, t: Sketch)
    requires s.Configured() && t.gamma == s.gamma && t.minValue == s.minValue && t.maxValue == s.maxValue
    ensures t.Configured()
  {
    hide ValueToIndex;
  }

  /** An extreme is finite after a merge if it was finite on either side. */
  lemma MergeStatistics(c: nat, x: real, lo: Ext, hi: Ext, d: nat, y: real, l: Ext, h: Ext)
    requires Statistics(c, x, lo, hi) && Statistics(d, y, l, h)
    ensures Statistics(c + d, x + y, Lower(lo, l), Upper(hi, h))
  {}

  lemma MergeKeeps(s: Sketch, t: Sketch)
    requires s.Configured() && Consistent(s) && Consistent(t)
    ensures s.Merge(t).Configured() && Consistent(s.Merge(t))
  {
    hide ValueToIndex, Union, Sound, Lower, Upper, Statistics, Sketch.Configured;
    var u := s.Merge(t);
    SameConfiguration(s, u);
    assert Sound(u.bins, u.count) by {
      UnionSound(s.bins, s.count, t.bins, t.count);
    }
    assert Statistics(u.count, u.sum, u.min, u.max) by {
      MergeStatistics(s.count, s.sum, s.min, s.max, t.count, t.sum, t.min, t.max);
    }
  }

  /** `actual` is the sketch `ideal` up to what collapses do to buckets. */
  ghost predicate Follows(ideal: Sketch, actual: Sketch) {
    && actual.(bins := ideal.bins) == ideal
    && (actual.bins == ideal.bins || Reduced(ideal.bins, actual.bins))
  }

  /** The same without the ranks. */
  ghost predicate Resembles(ideal: Sketch, actual: Sketch) {
    && actual.(bins := ideal.bins) == ideal
    && (actual.bins == ideal.bins || Thinned(ideal.bins, actual.bins))
  }

  /** An update to the sketch `sum` and the check of the stores behind it, in terms of the state before. `kept` says
      that the active store takes the update without a collapse, `checked` that a check is due, and `density` is the
      density it then finds. The stores switch exactly when the density asks for it, and the result is exactly `sum`
      if and only if neither the active store nor a switch to a sparse store collapses any bucket. */
  ghost predicate Updated(sum: Sketch, wasSparse: bool, kept: bool, checked: bool, density: real, threshold: real,
                          low: nat, after: Sketch, isSparse: bool)
  {
    var switches := checked && Switches(wasSparse, density, threshold);
    && Follows(sum, after)
    && (!checked ==> isSparse == wasSparse)
    && (kept ==> isSparse == (wasSparse != switches))
    && (after == sum <==> kept && (wasSparse || !switches || Spared(sum.bins, 100, low)))
  }

  /** The active store takes a merge to `sum` without a collapse. */
  ghost predicate TakesMerge(sparse: bool, other: Sketch, sum: Sketch, low: nat) {
    !sparse || |other.bins| <= 100 || NoneLow(sum.bins, low)
  }

  /** A merge is such an update. */
  ghost predicate MergedWith(before: Sketch, wasSparse: bool, other: Sketch, checked: bool, density: real,
                             threshold: real, low: nat, after: Sketch, isSparse: bool)
  {
    var sum := before.Merge(other);
    Updated(sum, wasSparse, TakesMerge(wasSparse, other, sum, low), checked, density, threshold, low, after, isSparse)
  }

  lemma FollowsExactly(ideal: Sketch, actual: Sketch, exact: bool)
    requires actual.(bins := ideal.bins) == ideal && Becomes(ideal.bins, actual.bins, exact)
    ensures Follows(ideal, actual) && (actual == ideal <==> exact)
  {}

  lemma ResemblesExactly(ideal: Sketch, actual: Sketch, exact: bool)
    requires actual.(bins := ideal.bins) == ideal && Thins(ideal.bins, actual.bins, exact)
    ensures Resembles(ideal, actual) && (exact ==> actual == ideal)
  {}

  lemma UpdatedUnchecked(sum: Sketch, sparse: bool, kept: bool, density: real, threshold: real, low: nat,
                         after: Sketch)
    requires after.(bins := sum.bins) == sum && Becomes(sum.bins, after.bins, kept)
    ensures Updated(sum, sparse, kept, false, density, threshold, low, after, sparse)
  {
    FollowsExactly(sum, after, kept);
  }

  /** Clamped values have int32 indices, and adding one keeps the statistics consistent. */
  lemma AddKeeps(s: Sketch, v: real, c: nat)
    requires s.Configured() && Consistent(s) && v > 0.0 && c > 0
    ensures s.gamma > 0.0 && MIN_INT32 < ValueToIndex(s.Base(), s.Clamp(v)) < MAX_INT32
    ensures s.Add(v, c).Configured() && Consistent(s.Add(v, c))
  {
    hide ValueToIndex, Plus, Total;
    var x := s.Clamp(v);
    IndicesOrdered(s.Base(), s.minValue, x);
    IndicesOrdered(s.Base(), x, s.maxValue);
    PlusSound(s.bins, s.count, ValueToIndex(s.Base(), x), c);
    assert Weighted(x, c) > 0.0;
  }

  /** Buckets that took the place of sound ones, with no larger total, stay sound. */
  lemma StillSound(before: Bins, after: Bins, exact: bool, total: nat, count: nat)
    requires Sound(before, count) && Sound(after, total) && total <= count && Thins(before, after, exact)
    ensures Sound(after, count)
  {
    hide Total;
    if !exact && |before| > 0 {
      var lo, hi :| Extremes(before, lo, hi) && Extremes(after, lo, hi);
      assert lo in after;
    }
  }

  /** Replacing the buckets by what became of them in the store keeps a sketch consistent. */
  lemma StillConsistent(s: Sketch, bins: Bins, exact: bool, total: nat)
    requires Consistent(s) && Sound(bins, total) && total <= s.count && Thins(s.bins, bins, exact)
    ensures Consistent(s.(bins := bins)) && (s.Configured() ==> s.(bins := bins).Configured())
  {
    hide Sound, Thins, ValueToIndex;
    StillSound(s.bins, bins, exact, total, s.count);
  }

  lemma SoundNothing()
    ensures Sound(map[], 0)
  {}

  lemma EmptyConsistent(s: Sketch)
    requires s == s.Emptied()
    ensures Consistent(s)
  {
    SoundNothing();
  }

  lemma EmptiedKeeps(s: Sketch)
    requires s.Configured()
    ensures s.Emptied().Configured() && Consistent(s.Emptied())
  {
    hide ValueToIndex;
    EmptyConsistent(s.Emptied());
  }

  lemma UnionWithEmpty(m: Bins)
    ensures Union(map[], m) == m
  {}

  class DDSketch {
    var gamma: real
    var minValue: real
    var maxValue: real
    var store: Store
    var useSparseStore: bool
    const autoSwitch: bool
    const switchThreshold: real
    var min: Ext
    var max: Ext
    var sum: real
    var count: nat
    const sparseStore: SparseStore
    const denseStore: DenseStore
    var lastSwitch: int

    ghost function Repr(): set<object>
      reads `store, denseStore, if store.Dense? then {store.dense} else {}
    {
      {this, sparseStore, denseStore, denseStore.bins} + store.Repr()
    }

    /** The abstract value of the sketch. */
    ghost function Value(): Sketch
      reads Repr()
    {
      Sketch(gamma, minValue, maxValue, store.Buckets(), count, sum, min, max)
    }

    /** The collapse threshold of its sparse stores. */
    function Threshold(): nat { sparseStore.collapseThreshold }

    /** The kind of the active store is the recorded kind. So the stand-by store a switch clears and fills is of
        the other kind, and never the active store itself, whether or not the active store is also one of the
        two stores kept for switching. */
    ghost predicate StoresValid()
      reads `store, `useSparseStore, sparseStore, denseStore, denseStore.bins, store.Repr()
    {
      && useSparseStore == store.Sparse? && store.CollapsesBelow(Threshold())
      && store.Valid() && sparseStore.Valid() && denseStore.Valid()
      && (store.Dense? && store.dense != denseStore ==> store.dense.bins != denseStore.bins)
    }

    ghost predicate Valid()
      reads Repr()
    {
      StoresValid() && Value().Configured() && Consistent(Value()) && store.GetTotalCount() <= count
    }

    /** A valid sketch has positive gamma. */
    lemma ValidGamma()
      requires Valid()
      ensures gamma > 0.0 && Value().gamma == gamma
    {}

    /** A new sketch. The source does not look at the configuration here, and neither does the model: a configuration
        that is not fine gives an object that is not valid. */
    constructor (config: Config, now: int)
      ensures StoresValid() && fresh(Repr()) && Value() == config.Empty() && store.GetTotalCount() == 0
      ensures config.Empty().Configured() ==> Valid()
      ensures useSparseStore == config.useSparseStore && lastSwitch == now
      ensures autoSwitch == config.autoSwitch && switchThreshold == config.switchThreshold
      ensures Threshold() == config.collapseThreshold
    {
      hide Sound, Bounds, DenseBins, ValueToIndex, Sketch.Configured, SparseStore.Valid, DenseStore.Valid, Store.Valid,
        Store.Buckets, Store.GetTotalCount, Store.CollapsesBelow, Consistent;
      EmptyConsistent(config.Empty());
      gamma, minValue, maxValue := config.relativeAccuracy, config.minValue, config.maxValue;
      useSparseStore, autoSwitch, switchThreshold := config.useSparseStore, config.autoSwitch, config.switchThreshold;
      min, max, sum, count, lastSwitch := PosInf, NegInf, 0.0, 0, now;
      sparseStore := new SparseStore(config.collapseThreshold);
      denseStore := new DenseStore(config.initialCapacity);
      var active := Store.Create(config.useSparseStore, config.collapseThreshold, config.initialCapacity);
      store := active;
      new;
      assert StoresValid();
    }

    method SwitchToDense()
      requires StoresValid() && useSparseStore
      modifies `store, `useSparseStore, denseStore, denseStore.bins
      ensures StoresValid() && fresh(Repr() - old(Repr())) && Repr() <= old(Repr()) + {denseStore.bins}
      ensures !useSparseStore
      ensures store.Buckets() == old(store.Buckets()) && store.GetTotalCount() == old(store.GetTotalCount())
    {
      hide Sound, Bounds, DenseBins, Union;
      var bins := store.GetNonEmptyBuckets();
      var total := store.GetTotalCount();
      store.ValidIsSound();
      UnionWithEmpty(bins);
      denseStore.Clear();
      denseStore.Merge(bins, total);
      store, useSparseStore := Dense(denseStore), false;
    }

    method SwitchToSparse()
      requires StoresValid() && !useSparseStore
      modifies `store, `useSparseStore, sparseStore
      ensures StoresValid() && Repr() <= old(Repr()) && useSparseStore
      ensures store.GetTotalCount() == old(store.GetTotalCount())
      ensures Becomes(old(store.Buckets()), store.Buckets(), Spared(old(store.Buckets()), 100, Threshold()))
    {
      hide Sound, Bounds, DenseBins, CollapsesTo, Becomes, Union, NoneLow;
      var bins := store.GetNonEmptyBuckets();
      var total := store.GetTotalCount();
      store.ValidIsSound();
      UnionWithEmpty(bins);
      sparseStore.Clear();
      sparseStore.Merge(bins, total);
      store, useSparseStore := Sparse(sparseStore), true;
    }

    /** Moves the buckets to a store of the other kind when the density asks for it, at most once a second. No
        count changes unless more than 100 buckets, and low ones among them, go to a sparse store. */
    method CheckAndSwitchStores(now: int)
      requires StoresValid()
      modifies `store, `useSparseStore, `lastSwitch, sparseStore, denseStore, denseStore.bins
      ensures StoresValid() && fresh(Repr() - old(Repr())) && Repr() <= old(Repr()) + {denseStore.bins}
      ensures var due := now - old(lastSwitch) >= SECOND;
              && lastSwitch == Due(now, old(lastSwitch))
              && useSparseStore ==
                 (old(useSparseStore) !=
                  (due && Switches(old(useSparseStore), old(store.DensitySpec()), switchThreshold)))
      ensures store.GetTotalCount() == old(store.GetTotalCount())
      ensures Becomes(old(store.Buckets()), store.Buckets(),
                      old(useSparseStore) || !useSparseStore || Spared(old(store.Buckets()), 100, Threshold()))
    {
      hide Sound, Bounds, DenseBins, Reduced, Store.DensitySpec, Store.Buckets, NoneLow;
      if now - lastSwitch < SECOND {
        return;
      }
      lastSwitch := now;
      var density := store.GetStoreDensity();
      if useSparseStore && density > switchThreshold {
        SwitchToDense();
      } else if !useSparseStore && density < switchThreshold / 2.0 {
        SwitchToSparse();
      }
    }

    /** The density of the store after adding a value, provided nothing collapses. */
    ghost function DensityAfterAdd(value: real, c: nat): real
      requires gamma > 0.0
      reads this, Repr()
    {
      store.DensityWith(map[ValueToIndex(1.0 + gamma, Value().Clamp(value)) := c])
    }

    /** The check of the stores at the end of an update to `target`, with the density it was announced to find. */
    method Rebalance(now: int, ghost target: Sketch, ghost exact: bool, ghost density: real)
      requires Valid() && Value().(bins := target.bins) == target && Becomes(target.bins, Value().bins, exact)
      requires exact ==> store.DensitySpec() == density
      modifies `store, `useSparseStore, `lastSwitch, sparseStore, denseStore, denseStore.bins
      ensures Valid() && fresh(Repr() - old(Repr())) && Repr() <= old(Repr()) + {denseStore.bins}
      ensures lastSwitch == Due(now, old(lastSwitch))
      ensures Updated(target, old(useSparseStore), exact, now - old(lastSwitch) >= SECOND, density, switchThreshold,
                      Threshold(), Value(), useSparseStore)
    {
      hide Sound, Bounds, DenseBins, ValueToIndex, Consistent, Becomes, Store.DensitySpec, Switches, Thins, Follows,
        Spared;
      ghost var before, sparse := Value(), useSparseStore;
      CheckAndSwitchStores(now);
      ghost var kept := sparse || !useSparseStore || Spared(before.bins, 100, Threshold());
      store.ValidIsSound();
      BecomesThins(before.bins, store.Buckets(), kept);
      StillConsistent(before, store.Buckets(), kept, store.GetTotalCount());
      BecomesTrans(target.bins, before.bins, store.Buckets(), exact, kept);
      FollowsExactly(target, before, exact);
      FollowsExactly(target, Value(), exact && kept);
    }

    /** The statistics change, and nothing about the stores. */
    method SetStatistics(c: nat, s: real, lo: Ext, hi: Ext)
      requires StoresValid()
      modifies `count, `sum, `min, `max
      ensures StoresValid() && Repr() == old(Repr())
      ensures Value() == old(Value()).(count := c, sum := s, min := lo, max := hi)
      ensures store.GetTotalCount() == old(store.GetTotalCount())
      ensures store.DensitySpec() == old(store.DensitySpec())
    {
      hide SparseStore.Valid, DenseStore.Valid, Store.Valid, Store.DensitySpec, Store.Buckets, Store.GetTotalCount;
      assert this !in store.Repr();
      count, sum, min, max := c, s, lo, hi;
    }

    /** Adds to the statistics after the store took its part of an update to `target`. */
    method UpdateStatistics(c: nat, s: real, lo: Ext, hi: Ext, ghost target: Sketch, ghost exact: bool)
      requires StoresValid() && store.GetTotalCount() <= target.count
      requires target.Configured() && Consistent(target) && Becomes(target.bins, store.Buckets(), exact)
      requires target ==
        Sketch(gamma, minValue, maxValue, target.bins, count + c, sum + s, Lower(min, lo), Upper(max, hi))
      modifies `count, `sum, `min, `max
      ensures Valid() && Repr() == old(Repr()) && Value() == target.(bins := old(store.Buckets()))
      ensures store.DensitySpec() == old(store.DensitySpec())
    {
      hide Sound, Bounds, DenseBins, ValueToIndex, Consistent, Becomes, Thins, SparseStore.Valid, DenseStore.Valid,
        Store.Valid, Store.DensitySpec, Store.Buckets, Store.GetTotalCount, Less, Sketch.Configured;
      store.ValidIsSound();
      hide StoresValid;
      ghost var bins := store.Buckets();
      BecomesThins(target.bins, bins, exact);
      StillConsistent(target, bins, exact, store.GetTotalCount());
      assert Value().(count := target.count, sum := target.sum, min := target.min, max := target.max) ==
             target.(bins := bins);
      SetStatistics(count + c, sum + s, if Less(lo, min) then lo else min, if Less(max, hi) then hi else max);
      assert Value() == target.(bins := bins);
    }

    method StoreAdd(index: int, c: nat)
      requires StoresValid() && c > 0 && MIN_INT32 < index < MAX_INT32
      modifies store.Repr()
      ensures unchanged(this)
      ensures StoresValid() && fresh(Repr() - old(Repr()))
      ensures store.GetTotalCount() == old(store.GetTotalCount()) + c
      ensures var sum := Plus(old(store.Buckets()), index, c);
              && Becomes(sum, store.Buckets(), !old(useSparseStore) || Spared(sum, 1000, Threshold()))
              && (!old(useSparseStore) || Spared(sum, 1000, Threshold()) ==>
                    store.DensitySpec() == old(store.DensityWith(map[index := c])))
    {
      hide Sound, Bounds, DenseBins, Becomes, Plus, Store.DensitySpec, Store.DensityWith, Spared;
      store.Add(index, c, Threshold());
    }

    /** The part of AddWithCount under the lock: bucket and statistics. */
    method Record(v: real, c: nat)
      requires Valid() && v > 0.0 && c > 0
      modifies Repr()
      ensures Valid() && fresh(Repr() - old(Repr()))
      ensures useSparseStore == old(useSparseStore) && lastSwitch == old(lastSwitch)
      ensures var sum := old(Value()).Add(v, c);
              && Value().(bins := sum.bins) == sum
              && Becomes(sum.bins, Value().bins, !useSparseStore || Spared(sum.bins, 1000, Threshold()))
              && (!useSparseStore || Spared(sum.bins, 1000, Threshold()) ==>
                    store.DensitySpec() == old(DensityAfterAdd(v, c)))
    {
      hide Sound, Bounds, DenseBins, ValueToIndex, Consistent, Becomes, Plus, Sketch.Configured, Lower, Upper,
        Weighted, SparseStore.Valid, DenseStore.Valid, Store.Valid, Store.DensitySpec, Store.DensityWith, Spared;
      AddKeeps(Value(), v, c);
      ghost var target := Value().Add(v, c);
      assert store.GetTotalCount() + c <= target.count;
      var value := if v < minValue then minValue else if v > maxValue then maxValue else v;
      var index := ValueToIndex(1.0 + gamma, value);
      StoreAdd(index, c);
      UpdateStatistics(c, Weighted(value, c), Fin(value), Fin(value),
                       target, !useSparseStore || Spared(target.bins, 1000, Threshold()));
    }

    /** Adds a value `c` times. This is the abstract Add if and only if nothing collapses (more than 1000 sparse
        buckets, or a switch that sends more than 100 to the sparse store, with low ones among them); a collapse
        changes nothing but buckets strictly between the extremes. `seen` and `now` are two readings of the clock. */
    method AddWithCount(value: real, c: nat, seen: int, now: int) returns (r: Result<()>)
      requires Valid()
      modifies Repr()
      ensures Valid() && fresh(Repr() - old(Repr()))
      ensures r == (if value <= 0.0 then Err(NonPositiveValue) else Ok(()))
      ensures value <= 0.0 || c == 0 ==>
                Value() == old(Value()) && lastSwitch == old(lastSwitch) && useSparseStore == old(useSparseStore)
      ensures value > 0.0 && c > 0 ==>
                lastSwitch == if autoSwitch && seen - old(lastSwitch) > SECOND then Due(now, old(lastSwitch))
                              else old(lastSwitch)
      ensures value > 0.0 && c > 0 ==>
                var sum := old(Value()).Add(value, c);
                Updated(sum, old(useSparseStore), !old(useSparseStore) || Spared(sum.bins, 1000, Threshold()),
                        autoSwitch && seen - old(lastSwitch) > SECOND && now - old(lastSwitch) >= SECOND,
                        old(DensityAfterAdd(value, c)), switchThreshold, Threshold(), Value(), useSparseStore)
    {
      hide Sound, Bounds, DenseBins, ValueToIndex, Consistent, Becomes, Store.Buckets, Store.DensitySpec, Plus,
        Updated, DensityAfterAdd, Spared;
      assert gamma > 0.0;
      hide DDSketch.Valid;
      if value <= 0.0 {
        return Err(NonPositiveValue);
      }
      if c == 0 {
        return Ok(());
      }
      ghost var target := Value().Add(value, c);
      ghost var sparse, exact := useSparseStore, !useSparseStore || Spared(target.bins, 1000, Threshold());
      ghost var density := DensityAfterAdd(value, c);
      Record(value, c);
      ghost var objects := Repr();
      r := Ok(());
      UpdatedUnchecked(target, sparse, exact, density, switchThreshold, Threshold(), Value());
      if autoSwitch && seen - lastSwitch > SECOND {
        Rebalance(now, target, exact, density);
        assert Repr() <= objects + {denseStore.bins};
      }
    }

    method StoreMerge(bins: Bins, total: nat)
      requires StoresValid() && Sound(bins, total)
      modifies store.Repr()
      ensures unchanged(this)
      ensures StoresValid() && fresh(Repr() - old(Repr()))
      ensures store.GetTotalCount() == old(store.GetTotalCount()) + total
      ensures var sum := Union(old(store.Buckets()), bins);
              var kept := !old(useSparseStore) || |bins| <= 100 || NoneLow(sum, Threshold());
              && Becomes(sum, store.Buckets(), kept)
              && (kept ==> store.DensitySpec() == old(store.DensityWith(bins)))
    {
      hide Sound, Bounds, DenseBins, Becomes, Union, Store.DensitySpec, Store.DensityWith, NoneLow;
      store.Merge(bins, total, Threshold());
    }

    /** The part of Merge before the switch, with the values read off the other sketch: store and statistics. */
    method Absorb(other: Sketch, total: nat)
      requires Valid() && Consistent(other) && Sound(other.bins, total) && total <= other.count
      modifies Repr()
      ensures Valid() && fresh(Repr() - old(Repr()))
      ensures useSparseStore == old(useSparseStore) && lastSwitch == old(lastSwitch)
      ensures var sum := old(Value()).Merge(other);
              && Value().(bins := sum.bins) == sum
              && Becomes(sum.bins, Value().bins, TakesMerge(useSparseStore, other, sum, Threshold()))
              && (TakesMerge(useSparseStore, other, sum, Threshold()) ==>
                    store.DensitySpec() == old(store.DensityWith(other.bins)))
    {
      hide Sound, Bounds, DenseBins, ValueToIndex, Consistent, Becomes, Union, Sketch.Configured, Lower, Upper,
        SparseStore.Valid, DenseStore.Valid, Store.Valid, Store.DensitySpec, Store.DensityWith, NoneLow;
      MergeKeeps(Value(), other);
      ghost var target := Value().Merge(other);
      assert store.GetTotalCount() + total <= target.count;
      StoreMerge(other.bins, total);
      UpdateStatistics(other.count, other.sum, other.min, other.max,
                       target, TakesMerge(useSparseStore, other, target, Threshold()));
    }

    /** Merge, with the values read off the other sketch. */
    method MergeValue(other: Sketch, total: nat, now: int)
      requires Valid() && Consistent(other) && Sound(other.bins, total) && total <= other.count
      modifies Repr()
      ensures Valid() && fresh(Repr() - old(Repr()))
      ensures lastSwitch == if autoSwitch then Due(now, old(lastSwitch)) else old(lastSwitch)
      ensures MergedWith(old(Value()), old(useSparseStore), other, autoSwitch && now - old(lastSwitch) >= SECOND,
                         old(store.DensityWith(other.bins)), switchThreshold, Threshold(), Value(), useSparseStore)
    {
      hide Sound, Bounds, DenseBins, ValueToIndex, Consistent, Becomes, Store.Buckets, Store.DensitySpec, Union,
        Updated, Sketch.Merge, Store.DensityWith, DDSketch.Valid, TakesMerge;
      ghost var target := Value().Merge(other);
      ghost var sparse, exact := useSparseStore, TakesMerge(useSparseStore, other, target, Threshold());
      ghost var density := store.DensityWith(other.bins);
      Absorb(other, total);
      ghost var objects := Repr();
      UpdatedUnchecked(target, sparse, exact, density, switchThreshold, Threshold(), Value());
      if autoSwitch {
        Rebalance(now, target, exact, density);
        assert Repr() <= objects + {denseStore.bins};
      }
    }

    /** What Merge and Bytes read off a sketch: its value, and the total of its store. */
    method Read() returns (s: Sketch, total: nat)
      requires Valid()
      ensures s == Value() && total == store.GetTotalCount()
      ensures Consistent(s) && Sound(s.bins, total) && total <= s.count
    {
      hide Sound, Bounds, DenseBins, ValueToIndex, Consistent, Sketch.Configured;
      var bins := store.GetNonEmptyBuckets();
      total := store.GetTotalCount();
      store.ValidIsSound();
      s := Sketch(gamma, minValue, maxValue, bins, count, sum, min, max);
    }

    /** Merges another sketch of the same gamma. Exact unless more than 100 buckets reach a sparse store and low ones
        are among the result. */
    method Merge(other: DDSketch, now: int) returns (r: Result<()>)
      requires Valid() && other.Valid() && Repr() !! other.Repr()
      modifies Repr()
      ensures Valid() && fresh(Repr() - old(Repr()))
      ensures r == (if old(gamma == other.gamma) then Ok(()) else Err(IncompatibleSketches))
      ensures r.Err? ==>
                Value() == old(Value()) && lastSwitch == old(lastSwitch) && useSparseStore == old(useSparseStore)
      ensures r.Ok? ==> lastSwitch == if autoSwitch then Due(now, old(lastSwitch)) else old(lastSwitch)
      ensures r.Ok? ==>
                MergedWith(old(Value()), old(useSparseStore), old(other.Value()),
                           autoSwitch && now - old(lastSwitch) >= SECOND,
                           old(store.DensityWith(other.store.Buckets())), switchThreshold, Threshold(), Value(),
                           useSparseStore)
    {
      hide Sound, Bounds, DenseBins, ValueToIndex, Consistent, MergedWith, Store.Buckets, Sketch.Configured,
        Store.Valid, SparseStore.Valid, DenseStore.Valid, Store.DensityWith;
      if gamma != other.gamma {
        return Err(IncompatibleSketches);
      }
      var theirs, total := other.Read();
      MergeValue(theirs, total, now);
      r := Ok(());
    }

    method ClearStores()
      requires StoresValid()
      modifies store.Repr(), sparseStore, denseStore, denseStore.bins
      ensures StoresValid() && Repr() == old(Repr())
      ensures store.Buckets() == map[] && store.GetTotalCount() == 0
      ensures sparseStore.bins == map[] && denseStore.Contents() == map[]
    {
      hide Sound, Bounds, DenseBins;
      store.Clear();
      sparseStore.Clear();
      denseStore.Clear();
    }

    /** Empties the sketch and both stand-by stores. */
    method Reset()
      requires Valid()
      modifies Repr()
      ensures Valid() && Repr() == old(Repr()) && Value() == old(Value()).Emptied()
      ensures useSparseStore == old(useSparseStore) && store == old(store)
      ensures sparseStore.bins == map[] && denseStore.Contents() == map[]
    {
      hide Sound, Bounds, DenseBins, ValueToIndex, SparseStore.Valid, DenseStore.Valid, Store.Valid, Consistent,
        Sketch.Configured;
      EmptiedKeeps(Value());
      ClearStores();
      assert this !in store.Repr();
      min, max, sum, count := PosInf, NegInf, 0.0, 0;
      assert StoresValid();
    }

    /** FromBytes between header and buckets: takes over the parameters and statistics of `s` and an empty store of
        the wanted kind, which is the one kept for switching. */
    method Restore(s: Sketch, sparse: bool)
      requires StoresValid()
      modifies `gamma, `minValue, `maxValue, `count, `sum, `min, `max, `store, `useSparseStore,
        sparseStore, denseStore, denseStore.bins
      ensures StoresValid() && Repr() <= old(Repr()) && useSparseStore == sparse
      ensures Value() == s.(bins := map[]) && store.GetTotalCount() == 0
    {
      hide Sound, Bounds, DenseBins, SparseStore.Valid, DenseStore.Valid;
      gamma, minValue, maxValue, count, sum, min, max := s.gamma, s.minValue, s.maxValue, s.count, s.sum, s.min, s.max;
      useSparseStore := sparse;
      if sparse {
        store := Sparse(sparseStore);
        sparseStore.Clear();
      } else {
        store := Dense(denseStore);
        denseStore.Clear();
      }
    }

    /** The struct literal of Copy. */
    constructor CopyOf(d: DDSketch, store: Store, sparse: SparseStore, dense: DenseStore)
      requires d.Valid() && store.Sparse? == d.useSparseStore
      requires store.Valid() && sparse.Valid() && dense.Valid()
      requires store.Dense? && store.dense != dense ==> store.dense.bins != dense.bins
      requires store.CollapsesBelow(sparse.collapseThreshold)
      requires store.Buckets() == d.store.Buckets() && store.GetTotalCount() == d.store.GetTotalCount()
      ensures Valid() && Value() == d.Value() && useSparseStore == d.useSparseStore && lastSwitch == d.lastSwitch
      ensures autoSwitch == d.autoSwitch && switchThreshold == d.switchThreshold
      ensures this.store == store && sparseStore == sparse && denseStore == dense
    {
      hide Sound, Bounds, DenseBins, ValueToIndex, Consistent, Sketch.Configured;
      gamma, minValue, maxValue := d.gamma, d.minValue, d.maxValue;
      useSparseStore, autoSwitch, switchThreshold := d.useSparseStore, d.autoSwitch, d.switchThreshold;
      min, max, sum, count, lastSwitch := d.min, d.max, d.sum, d.count, d.lastSwitch;
      this.store, sparseStore, denseStore := store, sparse, dense;
    }

    /** A deep copy: the same value over new objects; the active store is also the stand-by store of its kind. */
    method Copy() returns (d: DDSketch)
      requires Valid()
      ensures fresh(d) && d.Valid() && fresh(d.Repr()) && d.Value() == Value() && d.lastSwitch == lastSwitch
      ensures d.autoSwitch == autoSwitch && d.switchThreshold == switchThreshold
      ensures d.store == (if useSparseStore then Sparse(d.sparseStore) else Dense(d.denseStore))
      ensures d.Threshold() == if useSparseStore then Threshold() else 10
    {
      hide Sound, Bounds, DenseBins, ValueToIndex, Consistent, Sketch.Configured, SparseStore.Valid, DenseStore.Valid;
      var copied := store.Copy();
      if useSparseStore {
        var dense := new DenseStore(128);
        d := new DDSketch.CopyOf(this, copied, copied.sparse, dense);
      } else {
        var sparse := new SparseStore(10);
        d := new DDSketch.CopyOf(this, copied, sparse, copied.dense);
      }
    }

    /** The walk of GetValueAtQuantile. */
    method FindRank(rank: int) returns (found: Option<int>)
      requires Valid() && rank >= 1 && count > 0
      ensures found.Some? <==> rank <= Total(store.Buckets())
      ensures found.Some? ==> HoldsRank(store.Buckets(), rank, found.value)
    {
      hide Sound, Bounds, DenseBins, ValueToIndex, Below, Sketch.Configured;
      ghost var bins := store.Buckets();
      var lo, hi, some := store.GetBounds();
      HasBuckets(Value());
      BelowEnds(bins, lo);
      BelowEnds(bins, hi + 1);
      var total, i := 0, lo;
      while i <= hi
        invariant lo <= i <= hi + 1 && total == Below(bins, i) && total < rank
      {
        var c := store.Get(i);
        BelowStep(bins, i);
        total := total + c;
        if total >= rank {
          BelowAtMostTotal(bins, i + 1);
          return Some(i);
        }
        i := i + 1;
      }
      return None;
    }

    /** Walks up the buckets until the running sum reaches the rank. */
    method GetValueAtQuantile(q: real) returns (r: Result<real>)
      requires Valid()
      ensures AnswersQuantile(Value(), q, r)
    {
      hide Sound, Bounds, DenseBins, ValueToIndex, IndexToValue, Below, Rank, Store.Valid, Store.Buckets;
      if q < 0.0 || q > 1.0 {
        return Err(InvalidQuantile);
      }
      if count == 0 {
        return Err(EmptySketch);
      }
      if q == 0.0 {
        return Ok(min.v);
      }
      if q == 1.0 {
        return Ok(max.v);
      }
      RankBounds(q, count);
      var i := FindRank(Rank(q, count));
      match i
      case None => r := Ok(max.v);
      case Some(j) => r := Ok(IndexToValue(1.0 + gamma, j));
    }

    /** The loop of GetQuantileAtValue, from the lowest bucket up to but not including `index`. */
    method SumBelow(index: int) returns (total: nat)
      requires Valid() && count > 0
      ensures total == Below(store.Buckets(), index)
    {
      hide Sound, Bounds, DenseBins, ValueToIndex, Below, Sketch.Configured;
      ghost var bins := store.Buckets();
      var lo, hi, some := store.GetBounds();
      HasBuckets(Value());
      BelowEnds(bins, lo);
      BelowEnds(bins, index);
      var i := lo;
      total := 0;
      while i < index
        invariant lo <= i && (i <= index || i == lo) && total == Below(bins, i)
      {
        var c := store.Get(i);
        BelowStep(bins, i);
        total := total + c;
        i := i + 1;
      }
    }

    /** Sums the counts below the bucket of a value. */
    method GetQuantileAtValue(value: real) returns (r: Result<real>)
      requires Valid()
      ensures r == QuantileOf(Value(), value)
    {
      hide Bounds, DenseBins, ValueToIndex, Below;
      if value <= 0.0 {
        return Err(NonPositiveValue);
      }
      if count == 0 {
        return Err(EmptySketch);
      }
      var x := if value < minValue then minValue else if value > maxValue then maxValue else value;
      if !Less(min, Fin(x)) {
        return Ok(0.0);
      }
      if !Less(Fin(x), max) {
        return Ok(1.0);
      }
      var total := SumBelow(ValueToIndex(1.0 + gamma, x));
      r := Ok(total as real / count as real);
    }
  }
}

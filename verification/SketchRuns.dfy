/** Whole runs of sketch objects: fed value by value or merged, and then asked for a quantile. */
module SketchRuns {
  import opened Buckets
  import opened Collapse
  import opened DDSketches
  import opened DenseStores
  import opened LogMapping
  import opened RankDrift
  import opened SketchAnswers
  import opened SketchSpec
  import opened SparseStores
  import opened Stores

  // ----- runs -----

  /** What stays the same in a run: whether and when stores switch, and the collapse threshold. */
  datatype Setup = Setup(autoSwitch: bool, switchThreshold: real, low: nat)

  /** What a run goes through: the value, the kind of the active store, and the time of the last check. */
  datatype Stage = Stage(value: Sketch, sparse: bool, last: int)

  /** A check of the stores happens. An add reads the clock twice. */
  predicate Checked(u: Setup, last: int, clock: (int, int)) {
    u.autoSwitch && clock.0 - last > SECOND && clock.1 - last >= SECOND
  }

  /** No bucket of `sum` is collapsed by the active store, or by a switch to a sparse one. */
  ghost predicate Kept(u: Setup, wasSparse: bool, sum: Bins, isSparse: bool) {
    if wasSparse then Spared(sum, 1000, u.low) else !isSparse || Spared(sum, 100, u.low)
  }

  /** One AddWithCount of a value. It is exact if and only if no bucket is collapsed; a sparse store is left exactly
      when a check finds its density too high, and a dense one only by a check. */
  ghost predicate AddStep(u: Setup, before: Stage, v: real, clock: (int, int), after: Stage) {
    && before.value.gamma > 0.0 && v > 0.0
    && var sum := before.value.Add(v, 1);
    && Follows(sum, after.value)
    && (after.value == sum <==> Kept(u, before.sparse, sum.bins, after.sparse))
    && (!Checked(u, before.last, clock) ==> after.sparse == before.sparse)
    && (before.sparse && Spared(sum.bins, 1000, u.low) && Checked(u, before.last, clock) ==>
          after.sparse == !Switches(true, SparseDensity(sum.bins), u.switchThreshold))
    && after.last == if u.autoSwitch && clock.0 - before.last > SECOND then Due(clock.1, before.last) else before.last
  }

  /** A run of adds, whatever switches and collapses happen in it. */
  ghost predicate Run(u: Setup, stages: seq<Stage>, vs: seq<real>, clock: seq<(int, int)>) {
    && |stages| == |vs| + 1 && |clock| == |vs|
    && forall i :: 0 <= i < |vs| ==> AddStep(u, stages[i], vs[i], clock[i], stages[i + 1])
  }

  /** The counts of the buckets that were collapsed in a run. */
  ghost function Moved(stages: seq<Stage>, vs: seq<real>): nat
    requires |stages| == |vs| + 1 && AllPositive(vs) && forall i :: 0 <= i < |vs| ==> stages[i].value.gamma > 0.0
  {
    if vs == [] then 0
    else
      var n := |vs| - 1;
      Moved(stages[..n + 1], vs[..n]) + Displaced(stages[n].value.Add(vs[n], 1).bins, stages[n + 1].value.bins)
  }

  lemma RunPositive(u: Setup, stages: seq<Stage>, vs: seq<real>, clock: seq<(int, int)>)
    requires Run(u, stages, vs, clock)
    ensures AllPositive(vs) && forall i :: 0 <= i < |vs| ==> stages[i].value.gamma > 0.0
  {
    hide Follows, Kept;
    forall i | 0 <= i < |vs| ensures stages[i].value.gamma > 0.0 && vs[i] > 0.0 {
      assert AddStep(u, stages[i], vs[i], clock[i], stages[i + 1]);
    }
  }

  lemma RunPrefix(u: Setup, stages: seq<Stage>, vs: seq<real>, clock: seq<(int, int)>, i: nat)
    requires Run(u, stages, vs, clock) && i <= |vs|
    ensures Run(u, stages[..i + 1], vs[..i], clock[..i])
  {
    hide AddStep;
  }

  /** Every run of adds follows the abstract run, with ranks that drift by the counts of the buckets it collapses. */
  lemma {:induction false} RunTracks(u: Setup, stages: seq<Stage>, vs: seq<real>, clock: seq<(int, int)>)
    requires Run(u, stages, vs, clock) && stages[0].value.gamma > 0.0
    ensures AllPositive(vs) && forall i :: 0 <= i < |vs| ==> stages[i].value.gamma > 0.0
    ensures Tracks(Feed(stages[0].value, vs), stages[|vs|].value, Moved(stages, vs))
    decreases |vs|
  {
    hide Tracks, Follows, Displaced, Kept, Sketch.Add;
    RunPositive(u, stages, vs, clock);
    if vs == [] {
      TracksSelf(stages[0].value);
    } else {
      var n := |vs| - 1;
      RunPrefix(u, stages, vs, clock, n);
      RunTracks(u, stages[..n + 1], vs[..n], clock[..n]);
      assert AddStep(u, stages[n], vs[n], clock[n], stages[n + 1]);
      AddTracks(Feed(stages[0].value, vs[..n]), stages[n].value, Moved(stages[..n + 1], vs[..n]), vs[n], 1,
                stages[n + 1].value);
    }
  }

  /** A run in which nothing is collapsed is the abstract run, and the ranks do not drift. So a sparse store may have
      up to 1000 buckets and a dense one any number, as long as no check sends more than 100 to a sparse store. */
  lemma {:induction false} KeptRun(u: Setup, stages: seq<Stage>, vs: seq<real>, clock: seq<(int, int)>)
    requires Run(u, stages, vs, clock) && stages[0].value.gamma > 0.0
    requires AllPositive(vs) && forall i :: 0 <= i < |vs| ==> stages[i].value.gamma > 0.0
    requires forall i :: 0 <= i < |vs| ==>
               Kept(u, stages[i].sparse, stages[i].value.Add(vs[i], 1).bins, stages[i + 1].sparse)
    ensures stages[|vs|].value == Feed(stages[0].value, vs) && Moved(stages, vs) == 0
    decreases |vs|
  {
    hide Follows, Displaced, Kept, Sketch.Add;
    if vs == [] {
    } else {
      var n := |vs| - 1;
      RunPrefix(u, stages, vs, clock, n);
      KeptRun(u, stages[..n + 1], vs[..n], clock[..n]);
      assert AddStep(u, stages[n], vs[n], clock[n], stages[n + 1]);
      DisplacedNothing(stages[n + 1].value.bins);
    }
  }

  /** The time of the last check stays, or moves on to a reading of the clock at least a second later; and stores switch
      only then. */
  lemma CheckSpaced(u: Setup, before: Stage, v: real, clock: (int, int), after: Stage)
    requires AddStep(u, before, v, clock, after)
    ensures after.last == before.last || (after.last == clock.1 && after.last - before.last >= 1_000_000_000)
    ensures after.sparse != before.sparse ==> after.last - before.last >= 1_000_000_000
  {
    hide Follows, Kept, Sketch.Add;
  }

  lemma {:induction false} ChecksAscend(u: Setup, stages: seq<Stage>, vs: seq<real>, clock: seq<(int, int)>, i: nat,
                                        j: nat)
    requires Run(u, stages, vs, clock) && i <= j <= |vs|
    ensures stages[i].last <= stages[j].last
    decreases j - i
  {
    hide AddStep;
    if i == j {
    } else {
      ChecksAscend(u, stages, vs, clock, i, j - 1);
      CheckSpaced(u, stages[j - 1], vs[j - 1], clock[j - 1], stages[j]);
    }
  }

  /** Over every run, any two switches of the store are at least a second apart. */
  lemma SwitchesSpaced(u: Setup, stages: seq<Stage>, vs: seq<real>, clock: seq<(int, int)>, i: nat, j: nat)
    requires Run(u, stages, vs, clock) && i < j < |vs|
    requires stages[i].sparse != stages[i + 1].sparse && stages[j].sparse != stages[j + 1].sparse
    ensures stages[j + 1].last - stages[i + 1].last >= 1_000_000_000
  {
    hide AddStep;
    ChecksAscend(u, stages, vs, clock, i + 1, j);
    CheckSpaced(u, stages[j], vs[j], clock[j], stages[j + 1]);
  }

  // ----- runs that cannot collapse -----

  /** No check of the stores happens: it is switched off, or no reading of the clock is late enough. */
  ghost predicate Undisturbed(u: Setup, last: int, clock: seq<(int, int)>) {
    u.autoSwitch ==> forall i :: 0 <= i < |clock| ==> clock[i].0 - last <= SECOND
  }

  /** The buckets never get dense enough for a sparse store to be left. */
  ghost predicate StaysSparse(u: Setup, start: Sketch, vs: seq<real>)
    requires start.gamma > 0.0 && AllPositive(vs)
  {
    forall i :: 0 <= i <= |vs| ==> !Switches(true, SparseDensity(Feed(start, vs[..i]).bins), u.switchThreshold)
  }

  /** Adding values cannot collapse any bucket: there are few enough in the end for every store and every switch, or the
      active store stays and takes that many. */
  ghost predicate NeverCollapses(u: Setup, start: Stage, vs: seq<real>, clock: seq<(int, int)>)
    requires start.value.gamma > 0.0 && AllPositive(vs)
  {
    var n := |Feed(start.value, vs).bins|;
    || n <= 100
    || ((!start.sparse || n <= 1000) && Undisturbed(u, start.last, clock))
    || (start.sparse && n <= 1000 && StaysSparse(u, start.value, vs))
  }

  lemma PlusGrows(m: Bins, i: int, c: nat)
    ensures |m| <= |Plus(m, i, c)|
  {
    if i in m {
      assert Plus(m, i, c).Keys == m.Keys;
    } else {
      assert Plus(m, i, c) - {i} == m;
    }
  }

  /** Feeding only ever adds buckets. */
  lemma {:induction false} FeedGrows(s: Sketch, vs: seq<real>, i: nat)
    requires s.gamma > 0.0 && AllPositive(vs) && i <= |vs|
    ensures AllPositive(vs[..i]) && |Feed(s, vs[..i]).bins| <= |Feed(s, vs).bins|
    decreases |vs|
  {
    hide ValueToIndex, Plus;
    if i == |vs| {
      assert vs[..i] == vs;
    } else {
      FeedGrows(s, Drop(vs), i);
      assert Drop(vs)[..i] == vs[..i];
      var t := Feed(s, Drop(vs));
      PlusGrows(t.bins, ValueToIndex(t.Base(), t.Clamp(Last(vs))), 1);
    }
  }

  lemma FeedSnoc(s: Sketch, vs: seq<real>, i: nat)
    requires s.gamma > 0.0 && AllPositive(vs) && i < |vs|
    ensures Feed(s, vs[..i + 1]) == Feed(s, vs[..i]).Add(vs[i], 1)
  {
    assert Drop(vs[..i + 1]) == vs[..i];
  }

  lemma FewSpared(m: Bins, limit: nat, low: nat)
    requires |m| <= limit
    ensures Spared(m, limit, low)
  {}

  /** Where such a run is after `i` values. */
  ghost predicate Calm(u: Setup, start: Stage, vs: seq<real>, clock: seq<(int, int)>, i: nat, stage: Stage)
    requires start.value.gamma > 0.0 && AllPositive(vs) && i <= |vs|
  {
    && stage.value == Feed(start.value, vs[..i])
    && (|Feed(start.value, vs).bins| > 100 ==> stage.sparse == start.sparse)
    && (Undisturbed(u, start.last, clock) ==> stage.last == start.last)
  }

  lemma CalmStep(u: Setup, start: Stage, vs: seq<real>, clock: seq<(int, int)>, i: nat, before: Stage, after: Stage)
    requires start.value.gamma > 0.0 && AllPositive(vs) && NeverCollapses(u, start, vs, clock) && i < |vs| == |clock|
    requires Calm(u, start, vs, clock, i, before) && AddStep(u, before, vs[i], clock[i], after)
    ensures Calm(u, start, vs, clock, i + 1, after)
    ensures Kept(u, before.sparse, before.value.Add(vs[i], 1).bins, after.sparse)
  {
    hide Feed, Follows, NoneLow, Sketch.Add, SparseDensity;
    FeedSnoc(start.value, vs, i);
    FeedGrows(start.value, vs, i + 1);
  }

  lemma StepPositive(u: Setup, before: Stage, v: real, clock: (int, int), after: Stage)
    requires AddStep(u, before, v, clock, after)
    ensures before.value.gamma > 0.0
  {}

  lemma CalmStart(u: Setup, start: Stage, vs: seq<real>, clock: seq<(int, int)>)
    requires start.value.gamma > 0.0 && AllPositive(vs)
    ensures Calm(u, start, vs, clock, 0, start)
  {}

  /** Whether a run can collapse at all is known before it. */
  lemma {:induction false} CalmRun(u: Setup, stages: seq<Stage>, vs: seq<real>, clock: seq<(int, int)>, i: nat)
    requires Run(u, stages, vs, clock) && stages[0].value.gamma > 0.0 && AllPositive(vs) && i <= |vs|
    requires NeverCollapses(u, stages[0], vs, clock)
    ensures Calm(u, stages[0], vs, clock, i, stages[i])
    ensures forall j :: 0 <= j < i ==> stages[j].value.gamma > 0.0
    ensures forall j :: 0 <= j < i ==>
              Kept(u, stages[j].sparse, stages[j].value.Add(vs[j], 1).bins, stages[j + 1].sparse)
    decreases i
  {
    hide NeverCollapses, Calm, AddStep, Kept, Sketch.Add;
    if i == 0 {
      CalmStart(u, stages[0], vs, clock);
    } else {
      CalmRun(u, stages, vs, clock, i - 1);
      assert AddStep(u, stages[i - 1], vs[i - 1], clock[i - 1], stages[i]);
      StepPositive(u, stages[i - 1], vs[i - 1], clock[i - 1], stages[i]);
      CalmStep(u, stages[0], vs, clock, i - 1, stages[i - 1], stages[i]);
    }
  }

  lemma NeverCollapsesExact(u: Setup, stages: seq<Stage>, vs: seq<real>, clock: seq<(int, int)>)
    requires Run(u, stages, vs, clock) && stages[0].value.gamma > 0.0 && AllPositive(vs)
    requires NeverCollapses(u, stages[0], vs, clock)
    ensures forall i :: 0 <= i < |vs| ==> stages[i].value.gamma > 0.0
    ensures stages[|vs|].value == Feed(stages[0].value, vs) && Moved(stages, vs) == 0
  {
    hide NeverCollapses, Calm, Kept, Sketch.Add, Run;
    CalmRun(u, stages, vs, clock, |vs|);
    KeptRun(u, stages, vs, clock);
  }

  // ----- sketch objects -----

  ghost function SetupOf(d: DDSketch): Setup {
    Setup(d.autoSwitch, d.switchThreshold, d.Threshold())
  }

  ghost function StageOf(d: DDSketch): Stage
    reads d, d.Repr()
  {
    Stage(d.Value(), d.useSparseStore, d.lastSwitch)
  }

  /** The density that a check of a sparse store finds after an add. */
  lemma SparseDensityAfterAdd(d: DDSketch, v: real)
    requires d.Valid() && d.useSparseStore && v > 0.0
    ensures d.gamma > 0.0 && d.DensityAfterAdd(v, 1) == SparseDensity(d.Value().Add(v, 1).bins)
  {
    hide SparseDensity, ValueToIndex;
    PlusIsUnion(d.store.Buckets(), ValueToIndex(1.0 + d.gamma, d.Value().Clamp(v)), 1);
  }

  /** What AddWithCount ensures is a step of a run. */
  lemma UpdatedIsStep(u: Setup, before: Stage, v: real, clock: (int, int), density: real, after: Stage)
    requires before.value.gamma > 0.0 && v > 0.0
    requires var sum := before.value.Add(v, 1);
             && (before.sparse ==> density == SparseDensity(sum.bins))
             && Updated(sum, before.sparse, !before.sparse || Spared(sum.bins, 1000, u.low),
                        Checked(u, before.last, clock), density, u.switchThreshold, u.low, after.value, after.sparse)
    requires after.last == if u.autoSwitch && clock.0 - before.last > SECOND then Due(clock.1, before.last)
                           else before.last
    ensures AddStep(u, before, v, clock, after)
  {
    hide Follows, Spared, SparseDensity, Sketch.Add;
  }

  /** One value of a run. */
  method AddOne(d: DDSketch, v: real, seen: int, now: int)
    requires d.Valid() && v > 0.0
    modifies d.Repr()
    ensures d.Valid() && fresh(d.Repr() - old(d.Repr()))
    ensures AddStep(SetupOf(d), old(StageOf(d)), v, (seen, now), StageOf(d))
  {
    hide Updated, ValueToIndex, SparseDensity, AddStep, DDSketch.DensityAfterAdd, DDSketch.Value, Spared, Sketch.Add;
    d.ValidGamma();
    hide DDSketch.Valid;
    ghost var before, density := StageOf(d), d.DensityAfterAdd(v, 1);
    if d.useSparseStore {
      SparseDensityAfterAdd(d, v);
    }
    var r := d.AddWithCount(v, 1, seen, now);
    UpdatedIsStep(SetupOf(d), before, v, (seen, now), density, StageOf(d));
  }

  lemma RunSnoc(u: Setup, stages: seq<Stage>, vs: seq<real>, clock: seq<(int, int)>, i: nat, after: Stage)
    requires i < |vs| == |clock| && Run(u, stages, vs[..i], clock[..i])
    requires AddStep(u, stages[i], vs[i], clock[i], after)
    ensures Run(u, stages + [after], vs[..i + 1], clock[..i + 1])
  {
    hide AddStep;
  }

  /** Adds any positive values one by one, each with the two readings of the clock of its AddWithCount. The stages of
      the object are a run, whatever switches and collapses happen. */
  method FeedAll(d: DDSketch, vs: seq<real>, clock: seq<(int, int)>) returns (ghost stages: seq<Stage>)
    requires d.Valid() && AllPositive(vs) && |clock| == |vs|
    modifies d.Repr()
    ensures d.Valid() && fresh(d.Repr() - old(d.Repr()))
    ensures |stages| == |vs| + 1 && Run(SetupOf(d), stages, vs, clock)
    ensures stages[0] == old(StageOf(d)) && stages[|vs|] == StageOf(d)
  {
    hide AddStep, DDSketch.Valid, DDSketch.Value;
    stages := [StageOf(d)];
    for i := 0 to |vs|
      invariant d.Valid() && fresh(d.Repr() - old(d.Repr()))
      invariant Run(SetupOf(d), stages, vs[..i], clock[..i])
      invariant stages[0] == old(StageOf(d)) && stages[i] == StageOf(d)
    {
      ghost var objects := d.Repr();
      AddOne(d, vs[i], clock[i].0, clock[i].1);
      RunSnoc(SetupOf(d), stages, vs, clock, i, StageOf(d));
      stages := stages + [StageOf(d)];
      assert d.Repr() - old(d.Repr()) <= (d.Repr() - objects) + (objects - old(d.Repr()));
    }
    assert vs[..|vs|] == vs && clock[..|vs|] == clock;
  }

  /** GetValueAtQuantile changes nothing. */
  method Ask(d: DDSketch, q: real) returns (r: Result<real>)
    requires d.Valid()
    ensures d.Repr() == old(d.Repr()) && d.Valid() && d.Value() == old(d.Value())
    ensures d.Value().gamma > 0.0 && AnswersQuantile(d.Value(), q, r)
  {
    hide AnswersQuantile, Store.Valid, Store.Buckets, Store.GetTotalCount, SparseStore.Valid, DenseStore.Valid,
      Sketch.Configured, Consistent;
    d.ValidGamma();
    r := d.GetValueAtQuantile(q);
  }

  lemma StartConfigured(d: DDSketch)
    requires d.Valid()
    ensures d.Value().Configured()
  {}

  lemma SameLength(s: Sketch, vs: seq<real>)
    ensures |ClampAll(s, vs)| == |vs| && (vs != [] ==> ClampAll(s, vs) != [])
  {}

  lemma SameBases(s: Sketch, t: Sketch)
    requires t.gamma == s.gamma
    ensures t.Base() == s.Base()
  {}

  /** The answer of a run from an empty sketch. */
  lemma AnswerOfRun(u: Setup, stages: seq<Stage>, vs: seq<real>, clock: seq<(int, int)>, q: real, r: Result<real>)
    requires Run(u, stages, vs, clock) && vs != [] && 0.0 < q < 1.0
    requires var s := stages[0].value; s.Configured() && s == s.Emptied()
    requires var t := stages[|vs|].value; t.gamma > 0.0 && AnswersQuantile(t, q, r)
    ensures AllPositive(vs) && forall i :: 0 <= i < |vs| ==> stages[i].value.gamma > 0.0
    ensures var s := stages[0].value;
            var xs := Sorted(ClampAll(s, vs));
            && r.Ok? && |xs| == |vs| && 1 <= Rank(q, |vs|) <= |vs|
            && WithinRanks(xs, Rank(q, |vs|), Moved(stages, vs), r.value, s.Base())
  {
    assert |stages| == |vs| + 1;
    hide Run, Feed, Sorted, Rank, AnswersQuantile, ClampAll, WithinRanks, Moved, Tracks, Represents,
      ValueToIndex;
    var s := stages[0].value;
    RunTracks(u, stages, vs, clock);
    FeedRepresents(s, vs);
    SameLength(s, vs);
    SameBases(s, Feed(s, vs));
    QuantileOfDrifted(Feed(s, vs), ClampAll(s, vs), stages[|vs|].value, Moved(stages, vs), q, r);
  }

  lemma CalmAnswer(u: Setup, stages: seq<Stage>, vs: seq<real>, clock: seq<(int, int)>, sorted: seq<real>, k: int,
                   e: real, b: real)
    requires Run(u, stages, vs, clock) && stages[0].value.gamma > 0.0 && AllPositive(vs)
    requires forall i :: 0 <= i < |vs| ==> stages[i].value.gamma > 0.0
    requires 1 <= k <= |sorted| && WithinRanks(sorted, k, Moved(stages, vs), e, b)
    ensures NeverCollapses(u, stages[0], vs, clock) ==> WithinFactor(sorted[k - 1], e, b)
  {
    assert |stages| == |vs| + 1;
    hide Run, WithinRanks, WithinFactor, NeverCollapses, Feed;
    if NeverCollapses(u, stages[0], vs, clock) {
      NeverCollapsesExact(u, stages, vs, clock);
      WithinNoRanks(sorted, k, e, b);
    }
  }

  /** The accuracy guarantee on objects: an empty sketch that is fed any positive values answers every q in (0,1) within
      a factor 1+gamma of values around the ceil(q*n)-th smallest clamped one, at most as many ranks away as counts were
      collapsed; and of that value itself if nothing can collapse, which is known before. */
  method QuantileOfStream(d: DDSketch, vs: seq<real>, clock: seq<(int, int)>, q: real)
    returns (r: Result<real>, ghost stages: seq<Stage>)
    requires d.Valid() && d.Value() == d.Value().Emptied() && AllPositive(vs) && |clock| == |vs| && vs != []
    requires 0.0 < q < 1.0
    modifies d.Repr()
    ensures d.Valid() && r.Ok? && old(d.gamma) > 0.0
    ensures Run(SetupOf(d), stages, vs, clock) && stages[0] == old(StageOf(d)) && stages[|vs|] == StageOf(d)
    ensures forall i :: 0 <= i < |vs| ==> stages[i].value.gamma > 0.0
    ensures var xs := Sorted(ClampAll(old(d.Value()), vs));
            && |xs| == |vs| && 1 <= Rank(q, |vs|) <= |vs|
            && WithinRanks(xs, Rank(q, |vs|), Moved(stages, vs), r.value, 1.0 + old(d.gamma))
            && (NeverCollapses(SetupOf(d), stages[0], vs, clock) ==>
                  WithinFactor(xs[Rank(q, |vs|) - 1], r.value, 1.0 + old(d.gamma)))
  {
    hide Run, Sorted, Rank, AnswersQuantile, NeverCollapses, ClampAll, WithinFactor, WithinRanks, Moved,
      DDSketch.Valid, DDSketch.Value, Sketch.Emptied;
    d.ValidGamma();
    StartConfigured(d);
    stages := FeedAll(d, vs, clock);
    r := Ask(d, q);
    AnswerOfRun(SetupOf(d), stages, vs, clock, q, r);
    CalmAnswer(SetupOf(d), stages, vs, clock, Sorted(ClampAll(stages[0].value, vs)), Rank(q, |vs|), r.value,
               stages[0].value.Base());
  }

  /** GetQuantileAtValue changes nothing. */
  method AskValue(d: DDSketch, v: real) returns (r: Result<real>)
    requires d.Valid()
    ensures d.Repr() == old(d.Repr()) && d.Valid() && d.Value() == old(d.Value())
    ensures d.Value().gamma > 0.0 && r == QuantileOf(d.Value(), v)
  {
    hide QuantileOf, Store.Valid, Store.Buckets, Store.GetTotalCount, SparseStore.Valid, DenseStore.Valid,
      Sketch.Configured, Consistent;
    d.ValidGamma();
    r := d.GetQuantileAtValue(v);
  }

  /** A run from an empty sketch follows the sketch of the clamped values. */
  lemma RunRepresents(u: Setup, stages: seq<Stage>, vs: seq<real>, clock: seq<(int, int)>)
    requires Run(u, stages, vs, clock) && vs != []
    requires var s := stages[0].value; s.Configured() && s == s.Emptied()
    ensures |stages| == |vs| + 1 && AllPositive(vs)
    ensures forall i :: 0 <= i < |vs| ==> stages[i].value.gamma > 0.0
    ensures var s := stages[0].value;
            && ClampAll(s, vs) != [] && |ClampAll(s, vs)| == |vs| && Feed(s, vs).Emptied() == s
            && Represents(Feed(s, vs), ClampAll(s, vs))
            && Tracks(Feed(s, vs), stages[|vs|].value, Moved(stages, vs))
  {
    assert |stages| == |vs| + 1;
    hide Run, Feed, ClampAll, Moved, Tracks, Represents, ValueToIndex;
    RunTracks(u, stages, vs, clock);
    FeedRepresents(stages[0].value, vs);
    SameLength(stages[0].value, vs);
  }

  /** The ends of a stream are exact whatever was collapsed. */
  method EndsOfStream(d: DDSketch, vs: seq<real>, clock: seq<(int, int)>) returns (lo: Result<real>, hi: Result<real>)
    requires d.Valid() && d.Value() == d.Value().Emptied() && AllPositive(vs) && |clock| == |vs| && vs != []
    modifies d.Repr()
    ensures d.Valid()
    ensures var xs := Sorted(ClampAll(old(d.Value()), vs));
            |xs| == |vs| && lo == Ok(xs[0]) && hi == Ok(xs[|vs| - 1])
  {
    hide Run, Feed, Sorted, AnswersQuantile, ClampAll, Moved, Tracks, Represents, DDSketch.Valid, DDSketch.Value,
      Sketch.Emptied;
    d.ValidGamma();
    StartConfigured(d);
    ghost var stages := FeedAll(d, vs, clock);
    lo := Ask(d, 0.0);
    hi := Ask(d, 1.0);
    RunRepresents(SetupOf(d), stages, vs, clock);
    EndsOfDrifted(Feed(stages[0].value, vs), ClampAll(stages[0].value, vs), stages[|vs|].value, Moved(stages, vs),
                  lo, hi);
  }

  /** The inverse query on objects: off from the share of the values below by at most the share of what was
      collapsed. */
  method ShareInStream(d: DDSketch, vs: seq<real>, clock: seq<(int, int)>, v: real)
    returns (r: Result<real>, ghost exact: real, ghost stages: seq<Stage>)
    requires d.Valid() && d.Value() == d.Value().Emptied() && AllPositive(vs) && |clock| == |vs| && vs != []
    requires v > 0.0
    modifies d.Repr()
    ensures d.Valid() && r.Ok? && old(d.gamma) > 0.0
    ensures |stages| == |vs| + 1 && Run(SetupOf(d), stages, vs, clock)
    ensures stages[0] == old(StageOf(d)) && stages[|vs|] == StageOf(d)
    ensures forall i :: 0 <= i < |vs| ==> stages[i].value.gamma > 0.0
    ensures var xs := ClampAll(old(d.Value()), vs);
            && |Sorted(xs)| == |xs| == |vs|
            && IsShare(xs, 1.0 + old(d.gamma), old(d.Value()).Clamp(v), exact)
            && Apart(r.value, exact) <= Moved(stages, vs) as real / |vs| as real
  {
    hide Run, Feed, Sorted, QuantileOf, ClampAll, Moved, Tracks, Represents, DDSketch.Valid, DDSketch.Value, IsShare;
    d.ValidGamma();
    StartConfigured(d);
    stages := FeedAll(d, vs, clock);
    r := AskValue(d, v);
    RunRepresents(SetupOf(d), stages, vs, clock);
    ghost var ideal, xs := Feed(stages[0].value, vs), ClampAll(stages[0].value, vs);
    QuantileOfValue(ideal, xs, v);
    ShareOfDrifted(ideal, xs, stages[|vs|].value, Moved(stages, vs), v);
    exact := QuantileOf(ideal, v).value;
  }

  /** Whether a merge is exact, from the state before it: the active store takes the other buckets without a collapse,
      and no switch behind it collapses any. */
  ghost predicate MergesExactly(sum: Sketch, sparse: bool, other: Sketch, checked: bool, density: real,
                                threshold: real, low: nat)
  {
    && TakesMerge(sparse, other, sum, low)
    && (sparse || Spared(sum.bins, 100, low) || !(checked && Switches(false, density, threshold)))
  }

  lemma SameBase(s: Sketch, t: Sketch)
    ensures s.Merge(t).Base() == s.Base()
  {}

  lemma AnswerExists(ideal: Sketch, xs: seq<real>, actual: Sketch, q: real, r: Result<real>)
    requires Represents(ideal, xs) && xs != [] && 0.0 < q < 1.0 && actual == ideal.(bins := actual.bins)
    requires AnswersQuantile(actual, q, r)
    ensures r.Ok? && 1 <= Rank(q, |xs|) <= |Sorted(xs)| == |xs|
  {
    hide Sorted, Rank;
    RankIsHeld(ideal, xs, q);
    StreamExtremes(xs);
    SortedSound(xs, ideal.min.v, ideal.max.v);
  }

  lemma AnswerOfMerge(before: Sketch, sparse: bool, other: Sketch, checked: bool, density: real, threshold: real,
                      low: nat, after: Sketch, isSparse: bool, xs: seq<real>, q: real, r: Result<real>)
    requires Represents(before.Merge(other), xs) && xs != [] && 0.0 < q < 1.0
    requires MergedWith(before, sparse, other, checked, density, threshold, low, after, isSparse)
    requires after.gamma > 0.0 && AnswersQuantile(after, q, r)
    ensures r.Ok? && 1 <= Rank(q, |xs|) <= |Sorted(xs)| == |xs|
    ensures MergesExactly(before.Merge(other), sparse, other, checked, density, threshold, low) ==>
              WithinFactor(Sorted(xs)[Rank(q, |xs|) - 1], r.value, before.Base())
    ensures var ideal := before.Merge(other);
            && Total(after.bins) <= Total(ideal.bins)
            && forall s <- after.bins :: Brackets(ideal, xs, Total(ideal.bins) - Total(after.bins), q, r.value, s)
  {
    hide Sorted, Rank, AnswersQuantile, Represents, Sketch.Merge, Brackets, RanksKept, Total, Grows, NoneLow;
    var ideal := before.Merge(other);
    if after == ideal {
      RanksKeptSelf(ideal.bins);
    }
    AnswerExists(ideal, xs, after, q, r);
    forall s <- after.bins
      ensures Brackets(ideal, xs, Total(ideal.bins) - Total(after.bins), q, r.value, s)
    {
      QuantileAfterCollapse(ideal, xs, after, q, r, s);
    }
    if MergesExactly(ideal, sparse, other, checked, density, threshold, low) {
      QuantileRelativeError(ideal, xs, q, r);
      SameBase(before, other);
    }
  }

  /** Asking after a merge, for all pairs of store kinds. If the merge is exact, the answer is within a factor 1+gamma
      of the ceil(q*n)-th smallest value of both streams together; and in any case every bucket that is left brackets
      it. */
  method QuantileOfMerge(d: DDSketch, e: DDSketch, now: int, q: real, ghost xs: seq<real>, ghost ys: seq<real>)
    returns (r: Result<real>)
    requires d.Valid() && e.Valid() && d.Repr() !! e.Repr() && d.gamma == e.gamma && 0.0 < q < 1.0
    requires Represents(d.Value(), xs) && Represents(e.Value(), ys) && xs + ys != []
    modifies d.Repr()
    ensures d.Valid() && r.Ok? && 1 <= Rank(q, |xs + ys|) <= |Sorted(xs + ys)| == |xs + ys|
    ensures MergesExactly(old(d.Value().Merge(e.Value())), old(d.useSparseStore), old(e.Value()),
                          d.autoSwitch && now - old(d.lastSwitch) >= SECOND,
                          old(d.store.DensityWith(e.store.Buckets())), d.switchThreshold, d.Threshold()) ==>
              WithinFactor(Sorted(xs + ys)[Rank(q, |xs + ys|) - 1], r.value, old(d.Value()).Base())
    ensures var ideal := old(d.Value().Merge(e.Value()));
            && Total(d.Value().bins) <= Total(ideal.bins)
            && forall s <- d.Value().bins ::
                 Brackets(ideal, xs + ys, Total(ideal.bins) - Total(d.Value().bins), q, r.value, s)
  {
    hide Sorted, Rank, AnswersQuantile, ValueToIndex, MergedWith, Represents, DDSketch.Valid, DDSketch.Value,
      Store.DensityWith, Sketch.Merge, Brackets, WithinFactor, MergesExactly;
    d.ValidGamma();
    e.ValidGamma();
    ghost var ideal, sparse, other, last := d.Value().Merge(e.Value()), d.useSparseStore, e.Value(), d.lastSwitch;
    ghost var before, density := d.Value(), d.store.DensityWith(e.store.Buckets());
    MergeRepresents(before, xs, other, ys);
    var merged := d.Merge(e, now);
    ghost var checked := d.autoSwitch && now - last >= SECOND;
    r := Ask(d, q);
    AnswerOfMerge(before, sparse, other, checked, density, d.switchThreshold, d.Threshold(), d.Value(),
                  d.useSparseStore, xs + ys, q, r);
  }

  lemma MergeFollows(before: Sketch, sparse: bool, other: Sketch, checked: bool, density: real, threshold: real,
                     low: nat, after: Sketch, isSparse: bool)
    requires MergedWith(before, sparse, other, checked, density, threshold, low, after, isSparse)
    ensures Follows(before.Merge(other), after)
  {}

  /** Asking after a merge of sketches that may both have collapsed before: `ideal` and `theirs` hold the two streams
      exactly, and the objects have drifted from them. The drifts add up with what the merge itself collapses. */
  method QuantileOfDriftedMerge(d: DDSketch, e: DDSketch, now: int, q: real, ghost ideal: Sketch, ghost moved: nat,
                                ghost theirs: Sketch, ghost more: nat, ghost xs: seq<real>, ghost ys: seq<real>)
    returns (r: Result<real>)
    requires d.Valid() && e.Valid() && d.Repr() !! e.Repr() && 0.0 < q < 1.0 && xs + ys != []
    requires Represents(ideal, xs) && Represents(theirs, ys) && ideal.gamma == theirs.gamma
    requires Tracks(ideal, d.Value(), moved) && Tracks(theirs, e.Value(), more)
    modifies d.Repr()
    ensures d.Valid() && r.Ok? && 1 <= Rank(q, |xs + ys|) <= |Sorted(xs + ys)| == |xs + ys|
    ensures var drift := moved + more + Displaced(old(d.Value().Merge(e.Value())).bins, d.Value().bins);
            && Tracks(ideal.Merge(theirs), d.Value(), drift)
            && WithinRanks(Sorted(xs + ys), Rank(q, |xs + ys|), drift, r.value, ideal.Base())
  {
    hide Sorted, Rank, AnswersQuantile, ValueToIndex, MergedWith, Represents, DDSketch.Valid, DDSketch.Value,
      Store.DensityWith, Sketch.Merge, WithinRanks, Shifted, Displaced, Follows;
    d.ValidGamma();
    e.ValidGamma();
    ghost var mine, other, sparse, last := d.Value(), e.Value(), d.useSparseStore, d.lastSwitch;
    ghost var density := d.store.DensityWith(e.store.Buckets());
    MergeRepresents(ideal, xs, theirs, ys);
    SameBase(ideal, theirs);
    var merged := d.Merge(e, now);
    MergeFollows(mine, sparse, other, d.autoSwitch && now - last >= SECOND, density, d.switchThreshold, d.Threshold(),
                 d.Value(), d.useSparseStore);
    MergeTracks(ideal, mine, moved, theirs, other, more, d.Value());
    r := Ask(d, q);
    ghost var drift := moved + more + Displaced(mine.Merge(other).bins, d.Value().bins);
    QuantileOfDrifted(ideal.Merge(theirs), xs + ys, d.Value(), drift, q, r);
  }
}

/** The abstract value of a DDSketch, and what its answers mean for the stream of values it was fed. */
module SketchSpec {
  import opened Buckets
  import opened LogMapping

  datatype Error = InvalidQuantile | EmptySketch | NonPositiveValue | IncompatibleSketches | BadData

  datatype Result<T> = Ok(value: T) | Err(error: Error)

  /** A float64 that may be an infinity, as the fields min and max are before the first value. */
  datatype Ext = NegInf | Fin(v: real) | PosInf

  predicate Less(a: Ext, b: Ext) {
    match (a, b)
    case (Fin(x), Fin(y)) => x < y
    case _ => a != b && (a.NegInf? || b.PosInf?)
  }

  function Lower(a: Ext, b: Ext): Ext { if Less(b, a) then b else a }

  function Upper(a: Ext, b: Ext): Ext { if Less(a, b) then b else a }

  /** The part of the sum that `c` times the value `x` makes up. */
  function Weighted(x: real, c: nat): real { x * c as real }

  /** Everything about a sketch that its queries and its merges depend on. */
  datatype Sketch = Sketch(gamma: real, minValue: real, maxValue: real,
                           bins: Bins, count: nat, sum: real, min: Ext, max: Ext)
  {
    function Base(): real { 1.0 + gamma }

    /** Positive gamma and ordered positive bounds, as config.go demands (it also demands gamma < 1, which nothing here
        needs), with bucket indices strictly inside int32. */
    ghost predicate Configured() {
      && gamma > 0.0 && 0.0 < minValue < maxValue
      && MIN_INT32 < ValueToIndex(Base(), minValue)
      && ValueToIndex(Base(), maxValue) < MAX_INT32
    }

    function Clamp(v: real): real {
      if v < minValue then minValue else if v > maxValue then maxValue else v
    }

    /** The sketch without values. */
    function Emptied(): Sketch {
      this.(bins := map[], count := 0, sum := 0.0, min := PosInf, max := NegInf)
    }

    /** AddWithCount of a positive value, when nothing collapses. */
    function Add(v: real, c: nat): Sketch
      requires gamma > 0.0 && v > 0.0
    {
      var x := Clamp(v);
      this.(bins := Plus(bins, ValueToIndex(Base(), x), c), count := count + c, sum := sum + Weighted(x, c),
            min := Lower(min, Fin(x)), max := Upper(max, Fin(x)))
    }

    /** Merge with a sketch of the same gamma, when nothing collapses. */
    function Merge(other: Sketch): Sketch {
      this.(bins := Union(bins, other.bins), count := count + other.count, sum := sum + other.sum,
            min := Lower(min, other.min), max := Upper(max, other.max))
    }
  }

  function Apart(x: real, y: real): real { if x < y then y - x else x - y }

  /** Clamping goes to the nearest value within the bounds: a value within them stays itself. */
  lemma ClampNearest(s: Sketch, v: real, y: real)
    requires s.minValue <= s.maxValue && s.minValue <= y <= s.maxValue
    ensures s.minValue <= s.Clamp(v) <= s.maxValue && Apart(s.Clamp(v), v) <= Apart(y, v)
    ensures s.minValue <= v <= s.maxValue ==> s.Clamp(v) == v
  {}

  // ----- streams -----

  function Drop(xs: seq<real>): seq<real>
    requires xs != []
  {
    xs[..|xs| - 1]
  }

  function Last(xs: seq<real>): real
    requires xs != []
  {
    xs[|xs| - 1]
  }

  /** How many values of a stream fall in each bucket. */
  ghost function Tally(b: real, xs: seq<real>): Bins
    requires b > 1.0
  {
    if xs == [] then map[] else Plus(Tally(b, Drop(xs)), ValueToIndex(b, Last(xs)), 1)
  }

  ghost function Sum(xs: seq<real>): real {
    if xs == [] then 0.0 else Sum(Drop(xs)) + Last(xs)
  }

  ghost function Minimum(xs: seq<real>): Ext {
    if xs == [] then PosInf else Lower(Minimum(Drop(xs)), Fin(Last(xs)))
  }

  ghost function Maximum(xs: seq<real>): Ext {
    if xs == [] then NegInf else Upper(Maximum(Drop(xs)), Fin(Last(xs)))
  }

  ghost predicate AllPositive(vs: seq<real>) {
    forall i :: 0 <= i < |vs| ==> vs[i] > 0.0
  }

  /** All values lie within the bounds of the sketch, as those that were added to it do. Values that came by a merge
      from a sketch with other bounds need not. */
  ghost predicate WithinBounds(s: Sketch, xs: seq<real>) {
    forall i :: 0 <= i < |xs| ==> s.minValue <= xs[i] <= s.maxValue
  }

  /** The sketch holds exactly the values of the stream. */
  ghost predicate Represents(s: Sketch, xs: seq<real>) {
    && s.Configured() && AllPositive(xs)
    && s.bins == Tally(s.Base(), xs)
    && s.count == |xs|
    && s.sum == Sum(xs)
    && s.min == Minimum(xs)
    && s.max == Maximum(xs)
  }

  lemma EmptyRepresents(s: Sketch)
    requires s.Configured()
    ensures Represents(s.Emptied(), []) && WithinBounds(s.Emptied(), [])
  {}

  /** A stream and a configuration leave one possible sketch. */
  lemma RepresentsUnique(s: Sketch, t: Sketch, xs: seq<real>)
    requires Represents(s, xs) && Represents(t, xs) && s.Emptied() == t.Emptied()
    ensures s == t
  {}

  lemma SnocStream(b: real, xs: seq<real>, x: real)
    requires b > 1.0
    ensures Tally(b, xs + [x]) == Plus(Tally(b, xs), ValueToIndex(b, x), 1)
    ensures Sum(xs + [x]) == Sum(xs) + x
    ensures Minimum(xs + [x]) == Lower(Minimum(xs), Fin(x))
    ensures Maximum(xs + [x]) == Upper(Maximum(xs), Fin(x))
  {
    assert Drop(xs + [x]) == xs;
  }

  /** min and max are values of the stream, and no value lies outside them. */
  lemma {:induction false} StreamExtremes(xs: seq<real>)
    requires xs != []
    ensures Minimum(xs).Fin? && Minimum(xs).v in xs && Maximum(xs).Fin? && Maximum(xs).v in xs
    ensures forall i :: 0 <= i < |xs| ==> Minimum(xs).v <= xs[i] <= Maximum(xs).v
  {
    if |xs| > 1 {
      StreamExtremes(Drop(xs));
    } else {
      assert Drop(xs) == [];
    }
  }

  lemma MeanStep(n: real, lo: real, hi: real, sum: real, x: real)
    requires n >= 0.0 && n * lo <= sum <= n * hi && lo <= x <= hi
    ensures (n + 1.0) * lo <= sum + x <= (n + 1.0) * hi
  {}

  /** The sum is that of as many values as there are: it lies between the same number of any bounds on them. */
  lemma {:induction false} SumBounds(xs: seq<real>, lo: real, hi: real)
    requires forall i :: 0 <= i < |xs| ==> lo <= xs[i] <= hi
    ensures |xs| as real * lo <= Sum(xs) <= |xs| as real * hi
  {
    if xs == [] {
    } else {
      SumBounds(Drop(xs), lo, hi);
      MeanStep(|Drop(xs)| as real, lo, hi, Sum(Drop(xs)), Last(xs));
    }
  }

  /** The average of a sketch lies between its min and max. */
  lemma AverageInside(s: Sketch, xs: seq<real>)
    requires Represents(s, xs) && xs != []
    ensures s.min.Fin? && s.max.Fin? && s.count > 0
    ensures s.count as real * s.min.v <= s.sum <= s.count as real * s.max.v
  {
    hide Tally, Sum, Minimum, Maximum;
    StreamExtremes(xs);
    SumBounds(xs, s.min.v, s.max.v);
  }

  /** Every bucket holds some value of the stream. */
  lemma {:induction false} TallyWitness(b: real, xs: seq<real>, j: int) returns (t: nat)
    requires b > 1.0 && j in Tally(b, xs)
    ensures t < |xs| && ValueToIndex(b, xs[t]) == j
  {
    if ValueToIndex(b, Last(xs)) == j {
      t := |xs| - 1;
    } else {
      t := TallyWitness(b, Drop(xs), j);
    }
  }

  /** Every value of the stream has a bucket. */
  lemma {:induction false} TallyMember(b: real, xs: seq<real>, t: nat)
    requires b > 1.0 && t < |xs|
    ensures ValueToIndex(b, xs[t]) in Tally(b, xs)
  {
    hide ValueToIndex;
    if t == |xs| - 1 {
    } else {
      TallyMember(b, Drop(xs), t);
    }
  }

  /** A value repeated `c` times adds `c` at its index. */
  lemma {:induction false} RepeatTally(b: real, xs: seq<real>, x: real, c: nat)
    requires b > 1.0 && c > 0
    ensures var ys := xs + seq(c, _ => x);
            && Tally(b, ys) == Plus(Tally(b, xs), ValueToIndex(b, x), c)
            && Minimum(ys) == Lower(Minimum(xs), Fin(x))
            && Maximum(ys) == Upper(Maximum(xs), Fin(x))
  {
    hide ValueToIndex, Tally, Minimum, Maximum;
    var zs := xs + seq(c - 1, _ => x);
    SnocStream(b, zs, x);
    assert xs + seq(c, _ => x) == zs + [x];
    if c == 1 {
      assert zs == xs;
    } else {
      RepeatTally(b, xs, x, c - 1);
    }
  }

  lemma NoneYet(x: real)
    ensures Weighted(x, 0) == 0.0
  {}

  lemma OneMore(x: real, c: nat)
    requires c > 0
    ensures Weighted(x, c) == Weighted(x, c - 1) + x
  {}

  lemma {:induction false} RepeatSum(xs: seq<real>, x: real, c: nat)
    ensures Sum(xs + seq(c, _ => x)) == Sum(xs) + Weighted(x, c)
  {
    hide Weighted;
    var ys := xs + seq(c, _ => x);
    if c == 0 {
      NoneYet(x);
      assert ys == xs;
    } else {
      RepeatSum(xs, x, c - 1);
      assert Drop(ys) == xs + seq(c - 1, _ => x);
      OneMore(x, c);
    }
  }

  lemma ExtremesOfNothing(a: Ext, b: Ext)
    ensures Lower(a, PosInf) == a && Upper(b, NegInf) == b
  {}

  lemma ExtremesAssociate(a: Ext, b: Ext, c: Ext, d: Ext, y: real)
    ensures Lower(Lower(a, b), Fin(y)) == Lower(a, Lower(b, Fin(y)))
    ensures Upper(Upper(c, d), Fin(y)) == Upper(c, Upper(d, Fin(y)))
  {}

  lemma {:induction false} ConcatStream(b: real, xs: seq<real>, ys: seq<real>)
    requires b > 1.0
    ensures Tally(b, xs + ys) == Union(Tally(b, xs), Tally(b, ys))
    ensures Sum(xs + ys) == Sum(xs) + Sum(ys)
    ensures Minimum(xs + ys) == Lower(Minimum(xs), Minimum(ys))
    ensures Maximum(xs + ys) == Upper(Maximum(xs), Maximum(ys))
  {
    hide ValueToIndex, Union, Plus, Lower, Upper;
    if ys == [] {
      assert xs + ys == xs;
      ExtremesOfNothing(Minimum(xs), Maximum(xs));
      UnionEmpty(Tally(b, xs));
    } else {
      var zs, y := Drop(ys), Last(ys);
      ConcatStream(b, xs, zs);
      SnocStream(b, xs + zs, y);
      assert (xs + zs) + [y] == xs + ys;
      UnionPlus(Tally(b, xs), Tally(b, zs), ValueToIndex(b, y), 1);
      ExtremesAssociate(Minimum(xs), Minimum(zs), Maximum(xs), Maximum(zs), y);
    }
  }

  /** AddWithCount adds its clamped value to the stream, as often as the count says. */
  lemma AddRepresents(s: Sketch, xs: seq<real>, v: real, c: nat)
    requires Represents(s, xs) && v > 0.0 && c > 0
    ensures var ys := xs + seq(c, _ => s.Clamp(v));
            Represents(s.Add(v, c), ys) && (WithinBounds(s, xs) ==> WithinBounds(s.Add(v, c), ys))
  {
    hide Tally, Sum, Minimum, Maximum, ValueToIndex, Plus;
    RepeatTally(s.Base(), xs, s.Clamp(v), c);
    RepeatSum(xs, s.Clamp(v), c);
  }

  /** Merging two sketches over the same map represents the two streams one after the other, whatever their bounds. */
  lemma MergeRepresents(s: Sketch, xs: seq<real>, t: Sketch, ys: seq<real>)
    requires Represents(s, xs) && Represents(t, ys) && t.gamma == s.gamma
    ensures Represents(s.Merge(t), xs + ys)
    ensures WithinBounds(s, xs) && WithinBounds(s, ys) ==> WithinBounds(s.Merge(t), xs + ys)
  {
    hide Tally, Sum, Minimum, Maximum, ValueToIndex, Union;
    ConcatStream(s.Base(), xs, ys);
  }

  /** The sketch after feeding values one by one. */
  ghost function Feed(s: Sketch, vs: seq<real>): (t: Sketch)
    requires s.gamma > 0.0 && AllPositive(vs)
    ensures t.gamma == s.gamma
  {
    if vs == [] then s else Feed(s, Drop(vs)).Add(Last(vs), 1)
  }

  ghost function ClampAll(s: Sketch, vs: seq<real>): seq<real> {
    seq(|vs|, i requires 0 <= i < |vs| => s.Clamp(vs[i]))
  }

  lemma {:induction false} FeedRepresents(s: Sketch, vs: seq<real>)
    requires s.Configured() && AllPositive(vs)
    ensures var t := Feed(s.Emptied(), vs);
            Represents(t, ClampAll(s, vs)) && WithinBounds(s, ClampAll(s, vs)) && t.Emptied() == s.Emptied()
  {
    if vs == [] {
      EmptyRepresents(s);
    } else {
      var us := Drop(vs);
      var t := Feed(s.Emptied(), us);
      FeedRepresents(s, us);
      AddRepresents(t, ClampAll(s, us), Last(vs), 1);
      assert ClampAll(s, vs) == ClampAll(s, us) + seq(1, _ => t.Clamp(Last(vs)));
    }
  }

  /** Merging the sketches of two streams gives the sketch of both streams: same count at every index, same
      count, sum, min and max. */
  lemma MergeIsFeedingBoth(s: Sketch, us: seq<real>, vs: seq<real>)
    requires s.Configured() && AllPositive(us) && AllPositive(vs)
    ensures Feed(s.Emptied(), us).Merge(Feed(s.Emptied(), vs)) == Feed(s.Emptied(), us + vs)
  {
    hide Tally, Sum, Minimum, Maximum, ValueToIndex, Feed, Union;
    FeedRepresents(s, us);
    FeedRepresents(s, vs);
    FeedRepresents(s, us + vs);
    var t, u := Feed(s.Emptied(), us), Feed(s.Emptied(), vs);
    MergeRepresents(t, ClampAll(s, us), u, ClampAll(s, vs));
    assert ClampAll(s, us) + ClampAll(s, vs) == ClampAll(s, us + vs);
    RepresentsUnique(t.Merge(u), Feed(s.Emptied(), us + vs), ClampAll(s, us + vs));
  }
}

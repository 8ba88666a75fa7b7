/** store.go DenseStore: a growable array of counts whose first element stands for index `offset`. */
module DenseStores {
  import opened Buckets
  import opened LogMapping
  import opened Ranging
  import opened StoreSpec

  /** The count an offset array holds at an index, 0 outside the array. */
  function DenseAt(s: seq<nat>, offset: int, i: int): nat {
    if offset <= i < offset + |s| then s[i - offset] else 0
  }

  /** The buckets an offset array stands for: its non-zero counts. */
  function DenseBins(s: seq<nat>, offset: int): Bins {
    map i | offset <= i < offset + |s| && DenseAt(s, offset, i) > 0 :: DenseAt(s, offset, i)
  }

  lemma DenseBinsAt(s: seq<nat>, offset: int, i: int)
    ensures At(DenseBins(s, offset), i) == DenseAt(s, offset, i)
  {}

  /** Two arrays that agree at every index stand for the same buckets. */
  lemma SameBins(s: seq<nat>, offset: int, t: seq<nat>, shifted: int)
    requires forall i :: DenseAt(s, offset, i) == DenseAt(t, shifted, i)
    ensures DenseBins(s, offset) == DenseBins(t, shifted)
  {}

  lemma UpdateBins(s: seq<nat>, offset: int, j: nat, c: nat)
    requires j < |s| && c > 0
    ensures DenseBins(s[j := s[j] + c], offset) == Plus(DenseBins(s, offset), offset + j, c)
  {
    var t := s[j := s[j] + c];
    assert forall i :: i != offset + j ==> DenseAt(t, offset, i) == DenseAt(s, offset, i);
  }

  /** One more array element adds one bucket if it is not zero. */
  lemma SnocBins(s: seq<nat>, offset: int, c: nat)
    ensures var m, n := DenseBins(s, offset), DenseBins(s + [c], offset);
            n == (if c > 0 then m[offset + |s| := c] else m) && |n| == |m| + (if c > 0 then 1 else 0)
  {
    var m, n := DenseBins(s, offset), DenseBins(s + [c], offset);
    assert forall i :: i != offset + |s| ==> DenseAt(s + [c], offset, i) == DenseAt(s, offset, i);
    assert DenseAt(s + [c], offset, offset + |s|) == c;
  }

  /** Offset and length of an offset array after growing to cover an index. */
  function Grown(offset: int, length: nat, index: int): (int, nat) {
    if length == 0 then (index, 1)
    else if index < offset then (index, length + (offset - index))
    else if index - offset >= length then (offset, index - offset + 1)
    else (offset, length)
  }

  /** Growth covers the index and what was covered before, and no more than that needs. */
  lemma GrownCovers(offset: int, length: nat, index: int, i: int)
    ensures var (o, l) := Grown(offset, length, index);
            && o <= index < o + l
            && (length > 0 ==>
                  (o <= i < o + l <==>
                    offset <= i < offset + length || index <= i < offset || offset + length <= i <= index))
            && (length == 0 ==> l == 1)
  {}

  /** The length after growing to cover all buckets of another store. */
  ghost function Covering(offset: int, length: nat, other: Bins): nat {
    if lo, hi :| Extremes(other, lo, hi) then
      var (o, l) := Grown(offset, length, lo);
      Grown(o, l, hi).1
    else length
  }

  lemma CoveringIs(offset: int, length: nat, other: Bins, lo: int, hi: int)
    requires Extremes(other, lo, hi)
    ensures var (o, l) := Grown(offset, length, lo); Covering(offset, length, other) == Grown(o, l, hi).1
  {
    var l, h :| Extremes(other, l, h) &&
      Covering(offset, length, other) == var (o, n) := Grown(offset, length, l); Grown(o, n, h).1;
    ExtremesUnique(other, lo, hi, l, h);
  }

  lemma CoveringNothing(offset: int, length: nat, other: Bins)
    requires |other| == 0
    ensures Covering(offset, length, other) == length
  {}

  /** One more bucket takes one step of growth. */
  lemma CoveringOne(offset: int, length: nat, index: int, c: nat)
    ensures Covering(offset, length, map[index := c]) == Grown(offset, length, index).1
  {
    CoveringIs(offset, length, map[index := c], index, index);
  }

  function DensityOf(nonEmpty: nat, capacity: nat): real {
    if capacity == 0 then 0.0 else nonEmpty as real / capacity as real
  }

  /** The share of the array that is in use. */
  lemma DensityIsShare(nonEmpty: nat, capacity: nat)
    requires nonEmpty <= capacity && capacity > 0
    ensures 0.0 <= DensityOf(nonEmpty, capacity) <= 1.0
    ensures DensityOf(nonEmpty, capacity) * capacity as real == nonEmpty as real
  {}

  class DenseStore {
    var bins: array<nat>
    var offset: int
    var count: nat
    var minIndex: int
    var maxIndex: int
    var hasElements: bool

    /** The abstract value: what GetNonEmptyBuckets returns. */
    ghost function Contents(): Bins
      reads this, bins
    {
      DenseBins(bins[..], offset)
    }

    ghost predicate Valid()
      reads this, bins
    {
      && Sound(Contents(), count)
      && Bounds(Contents(), minIndex, maxIndex, hasElements)
    }

    /** What the bins sum to less than the count. Growth and Add keep it, so it is 0 until a store that lost counts in
        a collapse is merged in. */
    ghost function Deficit(): int
      reads this, bins
    {
      count - Total(Contents())
    }

    constructor (capacity: nat)
      ensures Valid() && fresh(bins) && bins.Length == capacity && Contents() == map[] && count == 0
    {
      bins := new nat[capacity](_ => 0);
      offset, count := 0, 0;
      minIndex, maxIndex, hasElements := MAX_INT32, MIN_INT32, false;
      new;
      assert Contents() == map[];
    }

    method Clear()
      modifies this, bins
      ensures Valid() && bins == old(bins) && Contents() == map[] && count == 0
    {
      for i := 0 to bins.Length
        invariant bins == old(bins)
        invariant forall j :: 0 <= j < i ==> bins[j] == 0
      {
        bins[i] := 0;
      }
      assert Contents() == map[];
      count := 0;
      minIndex, maxIndex, hasElements := MAX_INT32, MIN_INT32, false;
    }

    /** Grows the array to cover an index; no count at any index changes. */
    method EnsureCapacity(index: int)
      modifies this`bins, this`offset
      ensures offset <= index < offset + bins.Length
      ensures (offset, bins.Length) == Grown(old(offset), old(bins.Length), index)
      ensures Contents() == old(Contents())
      ensures bins == old(bins) || fresh(bins)
      ensures old(bins.Length) > 0 ==> offset <= old(offset) && old(offset + bins.Length) <= offset + bins.Length
    {
      ghost var before, start := bins[..], offset;
      var bins' := bins;
      if bins.Length == 0 {
        bins, offset := new nat[1](_ => 0), index;
      } else if index < offset {
        var shift := offset - index;
        bins := new nat[bins'.Length + shift](_ => 0);
        forall i | 0 <= i < bins'.Length {
          bins[i + shift] := bins'[i];
        }
        offset := index;
      } else if index - offset >= bins.Length {
        bins := new nat[index - offset + 1](_ => 0);
        forall i | 0 <= i < bins'.Length {
          bins[i] := bins'[i];
        }
      }
      forall i ensures DenseAt(bins[..], offset, i) == DenseAt(before, start, i) {
      }
      SameBins(bins[..], offset, before, start);
    }

    /** The increment and the min/max update that Add and Merge share. */
    method AddAt(index: int, c: nat)
      requires offset <= index < offset + bins.Length && c > 0 && MIN_INT32 < index < MAX_INT32
      requires Bounds(Contents(), minIndex, maxIndex, |Contents()| > 0)
      modifies bins, this`minIndex, this`maxIndex
      ensures Contents() == Plus(old(Contents()), index, c)
      ensures Bounds(Contents(), minIndex, maxIndex, |Contents()| > 0) && |Contents()| > 0
    {
      hide DenseBins, Plus, Extremes;
      BoundsPlus(Contents(), minIndex, maxIndex, index, c);
      UpdateBins(bins[..], offset, index - offset, c);
      ghost var after := bins[..][index - offset := bins[index - offset] + c];
      bins[index - offset] := bins[index - offset] + c;
      assert bins[..] == after;
      if index < minIndex { minIndex := index; }
      if index > maxIndex { maxIndex := index; }
    }

    /** Adds `c` at one index and changes no other. */
    method Add(index: int, c: nat)
      requires Valid() && c > 0 && MIN_INT32 < index < MAX_INT32
      modifies this, bins
      ensures Valid() && (bins == old(bins) || fresh(bins))
      ensures count == old(count) + c && Contents() == Plus(old(Contents()), index, c)
      ensures Deficit() == old(Deficit())
      ensures bins.Length == Covering(old(offset), old(bins.Length), map[index := c])
    {
      hide DenseBins, Plus, Covering, Grown, Sound, Extremes;
      CoveringOne(offset, bins.Length, index, c);
      PlusSound(Contents(), count, index, c);
      TotalPlus(Contents(), index, c);
      EnsureCapacity(index);
      AddAt(index, c);
      count := count + c;
      hasElements := true;
    }

    method Get(index: int) returns (c: nat)
      ensures c == At(Contents(), index)
    {
      DenseBinsAt(bins[..], offset, index);
      var arrIdx := index - offset;
      if arrIdx < 0 || arrIdx >= bins.Length {
        return 0;
      }
      return bins[arrIdx];
    }

    method GetNonEmptyBuckets() returns (m: Bins)
      ensures m == Contents()
    {
      m := map[];
      for i := 0 to bins.Length
        invariant m == DenseBins(bins[..i], offset)
      {
        SnocBins(bins[..i], offset, bins[i]);
        assert bins[..i + 1] == bins[..i] + [bins[i]];
        if bins[i] > 0 {
          m := m[i + offset := bins[i]];
        }
      }
      assert bins[..bins.Length] == bins[..];
    }

    /** The share of the array elements that are not zero. */
    method Density() returns (d: real)
      ensures d == DensityOf(|Contents()|, bins.Length)
    {
      if bins.Length == 0 {
        return 0.0;
      }
      var nonEmpty := 0;
      for i := 0 to bins.Length
        invariant nonEmpty == |DenseBins(bins[..i], offset)|
      {
        SnocBins(bins[..i], offset, bins[i]);
        assert bins[..i + 1] == bins[..i] + [bins[i]];
        if bins[i] > 0 {
          nonEmpty := nonEmpty + 1;
        }
      }
      assert bins[..bins.Length] == bins[..];
      d := nonEmpty as real / bins.Length as real;
    }

    static method RangeOf(other: Bins) returns (minIdx: int, maxIdx: int)
      requires |other| > 0 && forall k <- other :: MIN_INT32 < k < MAX_INT32
      ensures Extremes(other, minIdx, maxIdx)
    {
      minIdx, maxIdx := MAX_INT32, MIN_INT32;
      var todo := other.Keys;
      while todo != {}
        invariant todo <= other.Keys
        invariant forall k <- other :: k in todo || minIdx <= k <= maxIdx
        invariant todo != other.Keys ==> minIdx in other && maxIdx in other
        invariant todo == other.Keys ==> minIdx == MAX_INT32 && maxIdx == MIN_INT32
      {
        var k := Pick(todo);
        todo := todo - {k};
        if k < minIdx { minIdx := k; }
        if k > maxIdx { maxIdx := k; }
      }
    }

    /** Grows the array to cover every index of another store. */
    method EnsureRange(other: Bins)
      requires forall k <- other :: MIN_INT32 < k < MAX_INT32
      modifies this`bins, this`offset
      ensures Contents() == old(Contents()) && (bins == old(bins) || fresh(bins))
      ensures forall k <- other :: offset <= k < offset + bins.Length
      ensures bins.Length == Covering(old(offset), old(bins.Length), other)
    {
      if |other| == 0 {
        CoveringNothing(offset, bins.Length, other);
      }
      if |other| > 0 {
        var minIdx, maxIdx := RangeOf(other);
        CoveringIs(offset, bins.Length, other, minIdx, maxIdx);
        EnsureCapacity(minIdx);
        EnsureCapacity(maxIdx);
      }
    }

    /** The merge loop, in any order of the other store's buckets. */
    method MergeBins(other: Bins)
      requires Bounds(Contents(), minIndex, maxIndex, |Contents()| > 0) && Positive(other)
      requires forall k <- other :: offset <= k < offset + bins.Length && MIN_INT32 < k < MAX_INT32
      modifies bins, this`minIndex, this`maxIndex
      ensures Contents() == Union(old(Contents()), other)
      ensures Bounds(Contents(), minIndex, maxIndex, |Contents()| > 0)
    {
      hide DenseBins, Extremes, Union, Plus;
      ghost var before, items := Contents(), [];
      ghost var now := before;
      var todo := other.Keys;
      while todo != {}
        invariant todo <= other.Keys && Enumerates(items, other - todo)
        invariant now == Contents() && now == AddAll(before, items)
        invariant Bounds(now, minIndex, maxIndex, |now| > 0)
      {
        var k := Pick(todo);
        items := NextItem(before, items, other, todo, k);
        now := Plus(now, k, other[k]);
        todo := todo - {k};
        var arrIdx := k - offset;
        if arrIdx >= 0 && arrIdx < bins.Length {
          AddAt(k, other[k]);
        } else {
          // The bounds guard of the source never fails.
          assert false;
        }
      }
      AddAllIsUnion(before, items, other - todo);
      NothingLeft(other, todo);
    }

    /** Grows the array as needed and adds all buckets of another store. */
    method MergeBuckets(other: Bins)
      requires Bounds(Contents(), minIndex, maxIndex, |Contents()| > 0) && Positive(other)
      requires forall k <- other :: MIN_INT32 < k < MAX_INT32
      modifies bins, this`bins, this`offset, this`minIndex, this`maxIndex
      ensures bins == old(bins) || fresh(bins)
      ensures Contents() == Union(old(Contents()), other)
      ensures Bounds(Contents(), minIndex, maxIndex, |Contents()| > 0)
      ensures bins.Length == Covering(old(offset), old(bins.Length), other)
    {
      hide DenseBins, Union, Covering, Bounds, Positive;
      EnsureRange(other);
      MergeBins(other);
    }

    /** Adds another store, given by its non-empty buckets and its total: pointwise addition, always. */
    method Merge(other: Bins, total: nat)
      requires Valid() && Sound(other, total)
      modifies this, bins
      ensures Valid() && (bins == old(bins) || fresh(bins))
      ensures count == old(count) + total && Contents() == Union(old(Contents()), other)
      ensures Deficit() == old(Deficit()) + total - Total(other)
      ensures bins.Length == Covering(old(offset), old(bins.Length), other)
    {
      hide DenseBins, Union, Covering, Bounds, Total, Sound, Positive;
      SoundParts(other, total);
      TotalUnion(Contents(), other);
      MergedFlag(Contents(), count, other, total, minIndex, maxIndex, hasElements);
      MergeBuckets(other);
      count := count + total;
      if count > 0 {
        hasElements := true;
      }
    }

    /** The struct literal of Copy, and the copy of the array. */
    constructor CopyOf(d: DenseStore)
      ensures fresh(bins) && bins[..] == d.bins[..] && offset == d.offset && count == d.count
      ensures minIndex == d.minIndex && maxIndex == d.maxIndex && hasElements == d.hasElements
    {
      bins := new nat[d.bins.Length](i requires 0 <= i < d.bins.Length reads d, d.bins => d.bins[i]);
      offset, count := d.offset, d.count;
      minIndex, maxIndex, hasElements := d.minIndex, d.maxIndex, d.hasElements;
    }

    /** A deep copy: a new object over a new array with the same contents. */
    method Copy() returns (d: DenseStore)
      requires Valid()
      ensures fresh(d) && fresh(d.bins) && d.Valid()
      ensures d.Contents() == Contents() && d.count == count
    {
      d := new DenseStore.CopyOf(this);
    }
  }
}

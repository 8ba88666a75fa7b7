/** store.go Store: the interface behind which a sketch holds either kind of bucket store. */
module Stores {
  import opened Buckets
  import opened Collapse
  import opened DenseStores
  import opened LogMapping
  import opened SparseStores
  import opened StoreSpec

  datatype Store = Sparse(sparse: SparseStore) | Dense(dense: DenseStore) {

    ghost function Repr(): set<object>
      reads if Dense? then {dense} else {}
    {
      match this
      case Sparse(s) => {s}
      case Dense(d) => {d, d.bins}
    }

    ghost function Buckets(): Bins
      reads Repr()
    {
      match this
      case Sparse(s) => s.bins
      case Dense(d) => d.Contents()
    }

    function GetTotalCount(): nat
      reads Repr()
    {
      match this
      case Sparse(s) => s.count
      case Dense(d) => d.count
    }

    ghost predicate Valid()
      reads Repr()
    {
      match this
      case Sparse(s) => s.Valid()
      case Dense(d) => d.Valid()
    }

    /** A sparse store has this collapse threshold. */
    predicate CollapsesBelow(threshold: nat) {
      Sparse? ==> sparse.collapseThreshold == threshold
    }

    /** A new empty store of the wanted kind. */
    static method Create(sparse: bool, threshold: nat, capacity: nat) returns (s: Store)
      ensures s.Sparse? == sparse && s.Valid() && fresh(s.Repr())
      ensures s.Buckets() == map[] && s.GetTotalCount() == 0 && s.CollapsesBelow(threshold)
    {
      if sparse {
        var t := new SparseStore(threshold);
        s := Sparse(t);
      } else {
        var d := new DenseStore(capacity);
        s := Dense(d);
      }
    }

    method Add(index: int, c: nat, ghost threshold: nat)
      requires Valid() && CollapsesBelow(threshold) && c > 0 && MIN_INT32 < index < MAX_INT32
      modifies Repr()
      ensures Valid() && fresh(Repr() - old(Repr()))
      ensures GetTotalCount() == old(GetTotalCount()) + c
      ensures var sum := Plus(old(Buckets()), index, c);
              && Becomes(sum, Buckets(), Dense? || Spared(sum, 1000, threshold))
              && (Dense? || Spared(sum, 1000, threshold) ==> DensitySpec() == old(DensityWith(map[index := c])))
    {
      PlusIsUnion(Buckets(), index, c);
      match this
      case Sparse(s) => s.Add(index, c);
      case Dense(d) => d.Add(index, c);
    }

    method Get(index: int) returns (c: nat)
      ensures c == At(Buckets(), index)
    {
      match this
      case Sparse(s) => c := At(s.bins, index);
      case Dense(d) => c := d.Get(index);
    }

    method Clear()
      modifies Repr()
      ensures Valid() && Repr() == old(Repr()) && Buckets() == map[] && GetTotalCount() == 0
    {
      match this
      case Sparse(s) => s.Clear();
      case Dense(d) => d.Clear();
    }

    method GetNonEmptyBuckets() returns (m: Bins)
      ensures m == Buckets()
    {
      match this
      case Sparse(s) => m := s.bins;
      case Dense(d) => m := d.GetNonEmptyBuckets();
    }

    /** The lowest and highest index in use, if any. */
    method GetBounds() returns (lo: int, hi: int, some: bool)
      requires Valid()
      ensures some == (|Buckets()| > 0) && (some ==> Extremes(Buckets(), lo, hi))
    {
      match this
      case Sparse(s) => lo, hi, some := s.minIndex, s.maxIndex, s.hasElements;
      case Dense(d) => lo, hi, some := d.minIndex, d.maxIndex, d.hasElements;
    }

    /** Every valid store hands out sound buckets. */
    lemma ValidIsSound()
      requires Valid()
      ensures Sound(Buckets(), GetTotalCount())
    {}

    /** Merges another store, given by the two values Merge reads off it: its buckets and its total. */
    method Merge(bins: Bins, total: nat, ghost threshold: nat)
      requires Valid() && CollapsesBelow(threshold) && Sound(bins, total)
      modifies Repr()
      ensures Valid() && fresh(Repr() - old(Repr()))
      ensures GetTotalCount() == old(GetTotalCount()) + total
      ensures var sum := Union(old(Buckets()), bins);
              && Becomes(sum, Buckets(), Dense? || |bins| <= 100 || NoneLow(sum, threshold))
              && (Dense? || |bins| <= 100 || NoneLow(sum, threshold) ==> DensitySpec() == old(DensityWith(bins)))
    {
      match this
      case Sparse(s) => s.Merge(bins, total);
      case Dense(d) => d.Merge(bins, total);
    }

    method Copy() returns (t: Store)
      requires Valid()
      ensures t.Sparse? == Sparse? && t.Valid() && fresh(t.Repr())
      ensures t.Buckets() == Buckets() && t.GetTotalCount() == GetTotalCount()
      ensures Sparse? ==> t.sparse.collapseThreshold == sparse.collapseThreshold
    {
      match this
      case Sparse(s) => var c := s.Copy(); t := Sparse(c);
      case Dense(d) => var c := d.Copy(); t := Dense(c);
    }

    method GetStoreDensity() returns (d: real)
      requires Valid()
      ensures d == DensitySpec()
    {
      match this
      case Sparse(s) => d := s.Density();
      case Dense(e) => d := e.Density();
    }

    ghost function DensitySpec(): real
      reads Repr()
    {
      match this
      case Sparse(s) => SparseDensity(s.bins)
      case Dense(d) => DensityOf(|d.Contents()|, d.bins.Length)
    }

    /** The density after adding the buckets `more`, provided nothing collapses. */
    ghost function DensityWith(more: Bins): real
      reads Repr()
    {
      match this
      case Sparse(s) => SparseDensity(Union(s.bins, more))
      case Dense(d) => DensityOf(|Union(d.Contents(), more)|, Covering(d.offset, d.bins.Length, more))
    }
  }
}

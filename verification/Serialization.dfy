/** serialization.go: Bytes, FromBytes and MergeBytes on sketch objects. */
module Serialization {
  import opened Buckets
  import opened ByteFormat
  import opened Collapse
  import opened DDSketches
  import opened DenseStores
  import opened LogMapping
  import opened Ranging
  import opened SketchSpec
  import opened SparseStores
  import opened StoreSpec
  import opened Stores

  /** Everything Bytes writes before the buckets. */
  function Header(f: Float64, s: Sketch, sparse: bool, n: nat): seq<Byte> {
    MAGIC + [VERSION, Flags(s, sparse)]
    + PutReal(f, s.gamma) + PutReal(f, s.minValue) + PutReal(f, s.maxValue)
    + Put(s.count % U64, 8) + PutExt(f, s.min) + PutExt(f, s.max) + PutExt(f, SumExt(s)) + Put(n % U32, 4)
  }

  lemma HeaderThenItems(f: Float64, s: Sketch, sparse: bool, items: seq<(int, nat)>)
    ensures Header(f, s, sparse, |items|) + PutItems(items) == Encode(f, s, sparse, items)
  {
    hide Put, PutReal, PutExt, PutItems, Flags, SumExt;
  }

  lemma {:induction false} PutItemsSnoc(items: seq<(int, nat)>, item: (int, nat))
    ensures PutItems(items + [item]) == PutItems(items) + PutItem(item)
  {
    hide PutItem;
    if items == [] {
      assert PutItems([item]) == PutItem(item) + PutItems([]);
    } else {
      PutItemsSnoc(items[1..], item);
      assert (items + [item])[1..] == items[1..] + [item];
    }
  }

  method WriteBuckets(bins: Bins) returns (data: seq<Byte>, ghost items: seq<(int, nat)>)
    ensures Enumerates(items, bins) && data == PutItems(items)
  {
    hide PutItem;
    data, items := [], [];
    var todo := bins.Keys;
    while todo != {}
      invariant todo <= bins.Keys && Enumerates(items, bins - todo)
      invariant data == PutItems(items)
    {
      var k := Pick(todo);
      PutItemsSnoc(items, (k, bins[k]));
      items := NextItem(map[], items, bins, todo, k);
      todo := todo - {k};
      data := data + PutItem((k, bins[k]));
    }
    NothingLeft(bins, todo);
  }

  /** Writes a sketch, its buckets in any order. */
  method Bytes(d: DDSketch, f: Float64) returns (data: seq<Byte>)
    requires d.Valid()
    ensures exists items :: Enumerates(items, d.Value().bins) && data == Encode(f, d.Value(), d.useSparseStore, items)
  {
    hide Sound, Bounds, DenseBins, ValueToIndex, Consistent, Sketch.Configured, Header, Encode, PutItems;
    var s, total := d.Read();
    data := Header(f, s, d.useSparseStore, |s.bins|);
    var buckets;
    ghost var items;
    buckets, items := WriteBuckets(s.bins);
    EnumeratesLength(items, s.bins);
    HeaderThenItems(f, s, d.useSparseStore, items);
    data := data + buckets;
    assert Enumerates(items, d.Value().bins) && data == Encode(f, d.Value(), d.useSparseStore, items);
  }

  /** The sketch an image stands for: its items added up. */
  ghost function SketchOf(image: Image): Sketch {
    image.s.(bins := AddAll(map[], image.items))
  }

  ghost predicate GoodItem(item: (int, nat)) {
    MIN_INT32 < item.0 < MAX_INT32 && item.1 > 0
  }

  /** The complete image of a reachable sketch. */
  ghost predicate GoodImage(image: Image) {
    && SketchOf(image).Configured() && Consistent(SketchOf(image))
    && forall i :: 0 <= i < |image.items| ==> GoodItem(image.items[i])
  }

  /** Bytes that are refused, or that hold a complete image. */
  ghost predicate Readable(f: Float64, before: Sketch, data: seq<Byte>) {
    var r := Decode(f, before, data);
    r.Ok? ==> GoodImage(r.value)
  }

  /** The store after reading the first `i` items. */
  ghost predicate Reading(items: seq<(int, nat)>, i: nat, bins: Bins, exact: bool, total: nat)
    requires i <= |items|
  {
    Thins(AddAll(map[], items[..i]), bins, exact) && total == Total(AddAll(map[], items[..i]))
  }

  lemma ExactSame(before: Bins, after: Bins, exact: bool)
    requires Thins(before, after, exact)
    ensures exact ==> after == before
  {}

  lemma {:induction false} AddAllGrows(m: Bins, items: seq<(int, nat)>, i: nat)
    requires i <= |items|
    ensures |AddAll(m, items[..i])| <= |AddAll(m, items)|
    decreases |items| - i
  {
    if i == |items| {
      assert items[..i] == items;
    } else {
      AddAllGrows(m, items, i + 1);
      assert items[..i + 1][..i] == items[..i];
    }
  }

  /** One more bucket read. */
  lemma AddNext(items: seq<(int, nat)>, i: nat, item: (int, nat), before: Bins, after: Bins, exact: bool, kept: bool)
    requires i < |items| && items[i] == item && Thins(AddAll(map[], items[..i]), before, exact)
    requires Thins(Plus(before, item.0, item.1), after, kept)
    requires exact && |Plus(before, item.0, item.1)| <= |AddAll(map[], items)| ==> kept
    ensures Thins(AddAll(map[], items[..i + 1]), after, exact)
    ensures Total(AddAll(map[], items[..i + 1])) == Total(AddAll(map[], items[..i])) + item.1
  {
    hide Plus, Becomes, Thins;
    var all, more := AddAll(map[], items[..i]), AddAll(map[], items[..i + 1]);
    assert items[..i + 1][..i] == items[..i];
    assert more == Plus(all, item.0, item.1);
    TotalPlus(all, item.0, item.1);
    ThinsPlus(all, before, exact, item.0, item.1);
    ExactSame(all, before, exact);
    AddAllGrows(map[], items, i + 1);
    ThinsTrans(more, Plus(before, item.0, item.1), after, exact, kept);
  }

  method ReadBucket(d: DDSketch, buf: seq<Byte>, ghost items: seq<(int, nat)>, ghost i: nat, ghost exact: bool)
    returns (rest: seq<Byte>)
    requires d.StoresValid() && i < |items| && TakeItem(buf).0 == items[i] && GoodItem(items[i])
    requires Reading(items, i, d.store.Buckets(), exact, d.store.GetTotalCount())
    requires exact ==> !d.useSparseStore || |AddAll(map[], items)| <= 1000
    modifies d.store.Repr()
    ensures unchanged(d)
    ensures d.StoresValid() && rest == TakeItem(buf).1
    ensures fresh(d.Repr() - old(d.Repr())) && fresh(d.store.Repr() - old(d.store.Repr()))
    ensures Reading(items, i + 1, d.store.Buckets(), exact, d.store.GetTotalCount())
  {
    hide Sound, Bounds, DenseBins, Store.Valid, SparseStore.Valid, DenseStore.Valid, Store.Buckets, Thins, TakeItem,
      Plus, AddAll, Total;
    var (item, s) := TakeItem(buf);
    ghost var before := d.store.Buckets();
    ghost var kept := !d.useSparseStore || Spared(Plus(before, item.0, item.1), 1000, d.Threshold());
    d.StoreAdd(item.0, item.1);
    rest := s;
    BecomesThins(Plus(before, item.0, item.1), d.store.Buckets(), kept);
    AddNext(items, i, item, before, d.store.Buckets(), exact, kept);
  }

  lemma ReadingStarts(items: seq<(int, nat)>, exact: bool)
    ensures Reading(items, 0, map[], exact, 0)
  {}

  lemma ReadingEnds(items: seq<(int, nat)>, bins: Bins, exact: bool, total: nat)
    requires Reading(items, |items|, bins, exact, total)
    ensures Thins(AddAll(map[], items), bins, exact) && total == Total(AddAll(map[], items))
  {
    assert items[..|items|] == items;
  }

  /** The bucket loop of FromBytes, into an empty store. */
  method ReadBuckets(d: DDSketch, data: seq<Byte>, n: nat)
    requires d.StoresValid() && d.store.Buckets() == map[] && d.store.GetTotalCount() == 0
    requires forall i :: 0 <= i < n ==> GoodItem(TakeItems(data, n)[i])
    modifies d.store.Repr()
    ensures unchanged(d)
    ensures d.StoresValid() && fresh(d.Repr() - old(d.Repr()))
    ensures var all := AddAll(map[], TakeItems(data, n));
            && d.store.GetTotalCount() == Total(all)
            && Thins(all, d.store.Buckets(), !old(d.useSparseStore) || |all| <= 1000)
  {
    hide Sound, Bounds, DenseBins, Store.Valid, SparseStore.Valid, DenseStore.Valid, Store.Buckets, Thins, TakeItem,
      AddAll, Total, DDSketch.StoresValid, Store.GetTotalCount, Reading, GoodItem;
    ghost var items := TakeItems(data, n);
    ghost var exact := !d.useSparseStore || |AddAll(map[], items)| <= 1000;
    var buf := data;
    ReadingStarts(items, exact);
    for i := 0 to n
      invariant d.StoresValid() && unchanged(d)
      invariant fresh(d.Repr() - old(d.Repr())) && fresh(d.store.Repr() - old(d.store.Repr()))
      invariant TakeItems(buf, n - i) == items[i..]
      invariant Reading(items, i, d.store.Buckets(), exact, d.store.GetTotalCount())
    {
      assert TakeItem(buf).0 == items[i] && TakeItems(TakeItem(buf).1, n - i - 1) == items[i + 1..];
      buf := ReadBucket(d, buf, items, i, exact);
    }
    ReadingEnds(items, d.store.Buckets(), exact, d.store.GetTotalCount());
  }

  /** The value after reading is the sketch that was read, up to a collapse. */
  lemma FinishRead(target: Sketch, actual: Sketch, exact: bool, total: nat)
    requires target.Configured() && Consistent(target) && Sound(actual.bins, total) && total == Total(target.bins)
    requires actual.(bins := target.bins) == target && Thins(target.bins, actual.bins, exact)
    ensures actual.Configured() && Consistent(actual) && total <= actual.count
    ensures Resembles(target, actual) && (exact ==> actual == target)
  {
    hide ValueToIndex, Thins, Resembles, Total;
    StillConsistent(target, actual.bins, exact, total);
    ResemblesExactly(target, actual, exact);
    assert actual == target.(bins := actual.bins);
  }

  function Outcome(image: Result<Image>): Result<()> {
    if image.Ok? then Ok(()) else Err(image.error)
  }

  /** `actual` is what loading `ideal` into an empty store leaves: itself, unless a sparse store got more than 1000
      buckets. */
  ghost predicate Loaded(ideal: Sketch, sparse: bool, actual: Sketch) {
    Resembles(ideal, actual) && (actual == ideal || (sparse && |ideal.bins| > 1000))
  }

  /** The part of FromBytes after the header. */
  method Load(d: DDSketch, s: Sketch, sparse: bool, buf: seq<Byte>, n: nat)
    requires d.StoresValid() && GoodImage(Image(s, sparse, TakeItems(buf, n)))
    modifies d.Repr()
    ensures d.Valid() && fresh(d.Repr() - old(d.Repr())) && d.useSparseStore == sparse
    ensures Loaded(SketchOf(Image(s, sparse, TakeItems(buf, n))), sparse, d.Value())
  {
    hide Sound, Bounds, DenseBins, ValueToIndex, Consistent, Sketch.Configured, AddAll, Resembles,
      Store.Valid, SparseStore.Valid, DenseStore.Valid, Store.Buckets, TakeItems, Thins;
    ghost var target := s.(bins := AddAll(map[], TakeItems(buf, n)));
    d.Restore(s, sparse);
    ReadBuckets(d, buf, n);
    d.store.ValidIsSound();
    FinishRead(target, d.Value(), !sparse || |target.bins| <= 1000, d.store.GetTotalCount());
  }

  /** Reads a sketch. Data too short for a header leaves the sketch alone; a wrong magic or version empties it;
      anything else replaces its value, exactly unless more than 1000 buckets go to a sparse store. */
  method FromBytes(d: DDSketch, f: Float64, data: seq<Byte>) returns (r: Result<()>)
    requires d.Valid() && Readable(f, d.Value().Emptied(), data)
    modifies d.Repr()
    ensures d.Valid() && fresh(d.Repr() - old(d.Repr()))
    ensures r == Outcome(Decode(f, old(d.Value()).Emptied(), data))
    ensures r.Err? ==> d.Value() == if |data| < 38 then old(d.Value()) else old(d.Value()).Emptied()
    ensures r.Ok? ==> var image := Decode(f, old(d.Value()).Emptied(), data).value;
                      d.useSparseStore == image.sparse && Loaded(SketchOf(image), image.sparse, d.Value())
  {
    hide Sound, Bounds, DenseBins, ValueToIndex, Consistent, Sketch.Configured, DecodeBody, GoodImage, Loaded,
      Store.Valid, SparseStore.Valid, DenseStore.Valid, Store.Buckets, TakeItems;
    if |data| < 38 {
      return Err(BadData);
    }
    d.Reset();
    if data[..4] != MAGIC || data[4] != VERSION {
      return Err(BadData);
    }
    var (s, n, buf) := DecodeBody(f, d.gamma, d.minValue, d.maxValue, data[5], data[6..]);
    Load(d, s, data[5] % 2 == 1, buf, n);
    r := Ok(());
  }

  /** The fields of a running sketch: float64 numbers and a uint64 count. */
  ghost predicate MachineSized(f: Float64, s: Sketch) {
    && f.Exact(s.gamma) && f.Exact(s.minValue) && f.Exact(s.maxValue) && f.Exact(s.sum)
    && (s.min.Fin? ==> f.Exact(s.min.v)) && (s.max.Fin? ==> f.Exact(s.max.v))
    && s.count < U64
  }

  lemma {:induction false} RangeCard(m: Bins, lo: int, hi: int)
    requires lo <= hi && forall k <- m :: lo <= k < hi
    ensures |m| <= hi - lo
    decreases hi - lo
  {
    if lo < hi {
      RangeCard(m - {hi - 1}, lo, hi - 1);
      assert |m| <= |m - {hi - 1}| + 1 by {
        if hi - 1 in m {
          assert m == (m - {hi - 1})[hi - 1 := m[hi - 1]];
        } else {
          assert m == m - {hi - 1};
        }
      }
    } else if |m| > 0 {
      var k := AnyKey(m);
      assert false;
    }
  }

  lemma {:induction false} ItemsFit(items: seq<(int, nat)>, m: Bins, total: nat)
    requires Enumerates(items, m) && Positive(m) && Total(m) <= total
    requires forall k <- m :: MIN_INT32 < k < MAX_INT32
    ensures forall i :: 0 <= i < |items| ==> GoodItem(items[i]) && items[i].1 <= total
  {
    if items == [] {
    } else {
      var n := |items| - 1;
      TotalSplit(m, items[n].0);
      ItemsFit(items[..n], m - {items[n].0}, total);
      forall i | 0 <= i < |items| ensures GoodItem(items[i]) && items[i].1 <= total {
        if i < n {
          assert items[i] == items[..n][i];
        }
      }
    }
  }

  /** FromBytes restores everything Bytes wrote: gamma, bounds, count, sum, min, max, the store kind and the count at
      every index, for any order of writing the buckets. */
  lemma BytesRoundTrip(f: Float64, s: Sketch, sparse: bool, items: seq<(int, nat)>, before: Sketch)
    requires s.Configured() && Consistent(s) && MachineSized(f, s) && Enumerates(items, s.bins)
    ensures Readable(f, before, Encode(f, s, sparse, items))
    ensures var r := Decode(f, before, Encode(f, s, sparse, items));
            r.Ok? && r.value.sparse == sparse && SketchOf(r.value) == s
  {
    hide ValueToIndex, Decode, Encode, Total, Enumerates, AddAll, Union;
    EnumeratesLength(items, s.bins);
    RangeCard(s.bins, MIN_INT32, MAX_INT32);
    ItemsFit(items, s.bins, s.count);
    EncodeRoundTrip(f, s, sparse, items, before);
    AddAllIsUnion(map[], items, s.bins);
    UnionWithEmpty(s.bins);
    assert SketchOf(Image(s.(bins := map[]), sparse, items)) == s;
  }

  /** Bytes, next to another sketch that stays as it is. */
  method WriteBeside(d: DDSketch, e: DDSketch, f: Float64)
    returns (data: seq<Byte>, ghost s: Sketch, ghost sparse: bool, ghost items: seq<(int, nat)>)
    requires d.Valid() && e.Valid()
    ensures e.Repr() == old(e.Repr()) && e.Valid() && e.Value() == old(e.Value())
    ensures s == old(d.Value()) && sparse == old(d.useSparseStore) && s.Configured() && Consistent(s)
    ensures Enumerates(items, s.bins) && data == Encode(f, s, sparse, items)
  {
    hide Encode, Enumerates, Store.Valid, Store.Buckets, Store.GetTotalCount, SparseStore.Valid, DenseStore.Valid,
      Sketch.Configured, Consistent;
    s, sparse := d.Value(), d.useSparseStore;
    data := Bytes(d, f);
    assert d.Repr() == old(d.Repr()) && d.Value() == s;
    items :| Enumerates(items, s.bins) && data == Encode(f, s, sparse, items);
  }

  /** Bytes and then FromBytes, on objects: whatever the other sketch was, it becomes one of the same value and store
      kind, provided the store is dense or has at most 1000 buckets. */
  method WriteAndRead(d: DDSketch, e: DDSketch, f: Float64) returns (data: seq<Byte>)
    requires d.Valid() && e.Valid() && d.Repr() !! e.Repr() && MachineSized(f, d.Value())
    requires d.useSparseStore ==> |d.Value().bins| <= 1000
    modifies e.Repr()
    ensures e.Valid() && fresh(e.Repr() - old(e.Repr()))
    ensures e.Value() == old(d.Value()) && e.useSparseStore == old(d.useSparseStore)
  {
    hide Encode, Decode, Enumerates, SketchOf, Readable, DDSketch.Valid, DDSketch.Value, MachineSized;
    ghost var s, sparse, items;
    data, s, sparse, items := WriteBeside(d, e, f);
    BytesRoundTrip(f, s, sparse, items, e.Value().Emptied());
    var r := FromBytes(e, f, data);
  }

  ghost predicate Writable(f: Float64, w: Image) {
    && w.s.Configured() && Consistent(w.s) && MachineSized(f, w.s) && Enumerates(w.items, w.s.bins)
    && |Encode(f, w.s, w.sparse, w.items)| < U32
  }

  function Encodings(f: Float64, ws: seq<Image>): (blobs: seq<seq<Byte>>)
    ensures |blobs| == |ws|
  {
    seq(|ws|, i requires 0 <= i < |ws| => Encode(f, ws[i].s, ws[i].sparse, ws[i].items))
  }

  /** A slice that is refused, or whose every part FromBytes can read. */
  ghost predicate SliceReadable(f: Float64, data: seq<Byte>) {
    var blobs := DecodeSlice(data);
    blobs.Ok? ==> forall i :: 0 <= i < |blobs.value| ==> Readable(f, DEFAULT_CONFIG.Empty(), blobs.value[i])
  }

  /** SerializeSlice and DeserializeSlice: any list of sketches comes back. What the one wrote, the other can read, and
      every part decodes to the value and the store kind that were written. */
  lemma SketchSliceRoundTrip(f: Float64, ws: seq<Image>)
    requires |ws| < U32 && forall i :: 0 <= i < |ws| ==> Writable(f, ws[i])
    ensures var blobs := Encodings(f, ws);
            && SliceReadable(f, EncodeSlice(blobs)) && DecodeSlice(EncodeSlice(blobs)) == Ok(blobs)
            && forall i :: 0 <= i < |ws| ==>
                 var r := Decode(f, DEFAULT_CONFIG.Empty(), blobs[i]);
                 r.Ok? && r.value.sparse == ws[i].sparse && SketchOf(r.value) == ws[i].s
  {
    hide Encode, Decode, EncodeSlice, DecodeSlice, SketchOf, Readable;
    SliceRoundTrip(Encodings(f, ws));
    forall i | 0 <= i < |ws|
      ensures Readable(f, DEFAULT_CONFIG.Empty(), Encodings(f, ws)[i])
      ensures var r := Decode(f, DEFAULT_CONFIG.Empty(), Encodings(f, ws)[i]);
              r.Ok? && r.value.sparse == ws[i].sparse && SketchOf(r.value) == ws[i].s
    {
      assert Writable(f, ws[i]);
      BytesRoundTrip(f, ws[i].s, ws[i].sparse, ws[i].items, DEFAULT_CONFIG.Empty());
    }
  }

  lemma {:induction false} PutBlobsSnoc(blobs: seq<seq<Byte>>, blob: seq<Byte>)
    ensures PutBlobs(blobs + [blob]) == PutBlobs(blobs) + (Put(|blob| % U32, 4) + blob)
  {
    hide Put;
    if blobs == [] {
      assert [] + [blob] == [blob] && PutBlobs([]) == [];
      assert blob + PutBlobs([]) == blob;
    } else {
      PutBlobsSnoc(blobs[1..], blob);
      assert (blobs + [blob])[1..] == blobs[1..] + [blob];
    }
  }

  lemma EncodingsSnoc(f: Float64, ws: seq<Image>, w: Image)
    ensures Encodings(f, ws + [w]) == Encodings(f, ws) + [Encode(f, w.s, w.sparse, w.items)]
  {}

  lemma NoBlobs(data: seq<Byte>)
    ensures data + PutBlobs([]) == data
  {}

  /** What SerializeSlice writes of a sketch. */
  ghost predicate Written(w: Image, d: DDSketch)
    reads d, d.Repr()
  {
    w.s == d.Value() && w.sparse == d.useSparseStore && Enumerates(w.items, w.s.bins)
  }

  /** One round of SerializeSlice. */
  method WriteOne(d: DDSketch, f: Float64) returns (blob: seq<Byte>, ghost w: Image)
    requires d.Valid()
    ensures Written(w, d) && blob == Encode(f, w.s, w.sparse, w.items)
  {
    hide Encode, DDSketch.Valid;
    blob := Bytes(d, f);
    ghost var items :| Enumerates(items, d.Value().bins) && blob == Encode(f, d.Value(), d.useSparseStore, items);
    w := Image(d.Value(), d.useSparseStore, items);
  }

  /** Writes a list of sketches, each with the length of its encoding in front. */
  method SerializeSlice(ds: seq<DDSketch>, f: Float64) returns (data: seq<Byte>)
    requires forall i :: 0 <= i < |ds| ==> ds[i].Valid()
    ensures exists ws :: |ws| == |ds| && (forall i :: 0 <= i < |ds| ==> Written(ws[i], ds[i])) &&
                         data == EncodeSlice(Encodings(f, ws))
  {
    hide Encode, Put, PutBlobs, Enumerates, DDSketch.Valid, DDSketch.Value, Written, Encodings;
    data := Put(|ds| % U32, 4);
    ghost var ws: seq<Image> := [];
    NoBlobs(data);
    for i := 0 to |ds|
      invariant forall j :: 0 <= j < |ds| ==> ds[j].Repr() == old(ds[j].Repr()) && ds[j].Valid()
      invariant |ws| == i && forall j :: 0 <= j < i ==> Written(ws[j], ds[j])
      invariant data == Put(|ds| % U32, 4) + PutBlobs(Encodings(f, ws))
    {
      var blob;
      ghost var w;
      blob, w := WriteOne(ds[i], f);
      EncodingsSnoc(f, ws, w);
      PutBlobsSnoc(Encodings(f, ws), blob);
      data := data + Put(|blob| % U32, 4) + blob;
      ws := ws + [w];
    }
  }

  /** The sketch `d` was read from the bytes `blob`. */
  ghost predicate ReadFrom(f: Float64, blob: seq<Byte>, d: DDSketch)
    reads d, d.Repr()
  {
    var image := Decode(f, DEFAULT_CONFIG.Empty(), blob);
    && image.Ok? && d.Valid()
    && d.useSparseStore == image.value.sparse && Loaded(SketchOf(image.value), image.value.sparse, d.Value())
  }

  /** The temporary sketch of MergeBytes and DeserializeSlice. */
  method FromBytesNew(f: Float64, data: seq<Byte>, config: Config, now: int) returns (r: Result<()>, temp: DDSketch)
    requires config.Empty().Configured() && Readable(f, config.Empty(), data)
    ensures fresh(temp) && temp.Valid() && fresh(temp.Repr())
    ensures r == Outcome(Decode(f, config.Empty(), data))
    ensures r.Ok? ==> var image := Decode(f, config.Empty(), data).value;
                      temp.useSparseStore == image.sparse && Loaded(SketchOf(image), image.sparse, temp.Value())
  {
    hide Sound, Bounds, DenseBins, ValueToIndex, Consistent, Sketch.Configured, Decode, GoodImage, Loaded,
      Store.Valid, SparseStore.Valid, DenseStore.Valid, Store.Buckets, SketchOf;
    temp := new DDSketch(config, now);
    assert temp.Value().Emptied() == config.Empty();
    r := FromBytes(temp, f, data);
  }

  /** One round of DeserializeSlice. */
  method ReadNew(f: Float64, blob: seq<Byte>, now: int) returns (r: Result<DDSketch>)
    requires Readable(f, DEFAULT_CONFIG.Empty(), blob)
    ensures r.Err? ==> r.error == BadData && Decode(f, DEFAULT_CONFIG.Empty(), blob).Err?
    ensures r.Ok? ==> fresh(r.value) && fresh(r.value.Repr()) && ReadFrom(f, blob, r.value)
  {
    hide Readable, Loaded, SketchOf, DDSketch.Valid, DecodeBody;
    DefaultConfigured();
    var e, sketch := FromBytesNew(f, blob, DEFAULT_CONFIG, now);
    r := if e.Ok? then Ok(sketch) else Err(e.error);
  }

  /** The loop of DeserializeSlice: each part goes into a new sketch, until one is refused. */
  method ReadAll(data: seq<Byte>, n: nat, f: Float64, now: int) returns (r: Result<seq<DDSketch>>)
    requires forall i :: 0 <= i < n ==> Readable(f, DEFAULT_CONFIG.Empty(), TakeBlobs(data, n)[i])
    ensures r.Err? ==> r.error == BadData
    ensures r.Err? ==> exists i :: 0 <= i < n && Decode(f, DEFAULT_CONFIG.Empty(), TakeBlobs(data, n)[i]).Err?
    ensures r.Ok? ==>
              && |r.value| == n
              && forall i :: 0 <= i < n ==>
                   fresh(r.value[i]) && fresh(r.value[i].Repr()) && ReadFrom(f, TakeBlobs(data, n)[i], r.value[i])
  {
    hide Decode, Readable, ReadFrom, TakeBlob;
    ghost var blobs := TakeBlobs(data, n);
    var buf, sketches: seq<DDSketch> := data, [];
    for i := 0 to n
      invariant |sketches| == i && TakeBlobs(buf, n - i) == blobs[i..]
      invariant forall j :: 0 <= j < i ==> fresh(sketches[j]) && fresh(sketches[j].Repr())
      invariant forall j :: 0 <= j < i ==> ReadFrom(f, blobs[j], sketches[j])
    {
      var (blob, rest) := TakeBlob(buf);
      assert blob == blobs[i] && TakeBlobs(rest, n - i - 1) == blobs[i + 1..];
      var sketch := ReadNew(f, blob, now);
      if sketch.Err? {
        return Err(sketch.error);
      }
      sketches := sketches + [sketch.value];
      buf := rest;
    }
    r := Ok(sketches);
  }

  /** Reads a list of sketches; fails if and only if the header or one of the parts is refused. */
  method DeserializeSlice(data: seq<Byte>, f: Float64, now: int) returns (r: Result<seq<DDSketch>>)
    requires SliceReadable(f, data)
    ensures r.Err? ==> r.error == BadData
    ensures DecodeSlice(data).Err? ==> r.Err?
    ensures DecodeSlice(data).Ok? ==>
              var blobs := DecodeSlice(data).value;
              && (r.Err? ==> exists i :: 0 <= i < |blobs| && Decode(f, DEFAULT_CONFIG.Empty(), blobs[i]).Err?)
              && (r.Ok? ==>
                && |r.value| == |blobs|
                && forall i :: 0 <= i < |blobs| ==>
                     fresh(r.value[i]) && fresh(r.value[i].Repr()) && ReadFrom(f, blobs[i], r.value[i]))
  {
    hide Decode, Readable, ReadFrom, TakeBlobs, Take;
    if |data| < 4 {
      return Err(BadData);
    }
    var (n, buf) := Take(data, 4, 0);
    r := ReadAll(buf, n, f, now);
  }

  /** A sketch that comes back as it was written: its numbers fit their fields, and a sparse store takes its buckets. */
  ghost predicate Portable(f: Float64, d: DDSketch)
    reads d, d.Repr()
  {
    && MachineSized(f, d.Value())
    && 66 + 12 * |d.Value().bins| < U32
    && (d.useSparseStore ==> |d.Value().bins| <= 1000)
  }

  lemma PortableWritable(f: Float64, d: DDSketch, w: Image)
    requires d.Valid() && Portable(f, d) && Written(w, d)
    ensures Writable(f, w) && (w.sparse ==> |w.s.bins| <= 1000)
    ensures w.s == d.Value() && w.sparse == d.useSparseStore
  {
    hide Encode, Enumerates, ValueToIndex, StoreSpec.Sound;
    EnumeratesLength(w.items, w.s.bins);
    EncodeLength(f, w.s, w.sparse, w.items);
  }

  /** A sketch object holds what was written. */
  ghost predicate Holds(d: DDSketch, w: Image)
    reads d, d.Repr()
  {
    d.Valid() && d.Value() == w.s && d.useSparseStore == w.sparse
  }

  lemma ReadBack(f: Float64, w: Image, blob: seq<Byte>, e: DDSketch)
    requires var image := Decode(f, DEFAULT_CONFIG.Empty(), blob);
             image.Ok? && image.value.sparse == w.sparse && SketchOf(image.value) == w.s
    requires ReadFrom(f, blob, e) && (w.sparse ==> |w.s.bins| <= 1000)
    ensures Holds(e, w)
  {
    hide Decode, SketchOf, DDSketch.Valid, Resembles;
  }

  /** SerializeSlice, with what it wrote of each sketch. */
  method WriteSlice(ds: seq<DDSketch>, f: Float64) returns (data: seq<Byte>, ghost ws: seq<Image>)
    requires |ds| < U32 && forall i :: 0 <= i < |ds| ==> ds[i].Valid() && Portable(f, ds[i])
    ensures |ws| == |ds| && data == EncodeSlice(Encodings(f, ws))
    ensures forall i :: 0 <= i < |ds| ==> ws[i].s == old(ds[i].Value()) && ws[i].sparse == old(ds[i].useSparseStore)
    ensures forall i :: 0 <= i < |ds| ==> Writable(f, ws[i]) && (ws[i].sparse ==> |ws[i].s.bins| <= 1000)
  {
    hide Encode, EncodeSlice, Encodings, Written, Writable, Portable, DDSketch.Valid, DDSketch.Value;
    data := SerializeSlice(ds, f);
    ws :| |ws| == |ds| && (forall i :: 0 <= i < |ds| ==> Written(ws[i], ds[i])) &&
      data == EncodeSlice(Encodings(f, ws));
    forall i | 0 <= i < |ds|
      ensures Writable(f, ws[i]) && (ws[i].sparse ==> |ws[i].s.bins| <= 1000)
      ensures ws[i].s == old(ds[i].Value()) && ws[i].sparse == old(ds[i].useSparseStore)
    {
      assert ds[i].Repr() == old(ds[i].Repr()) && ds[i].Valid() && Portable(f, ds[i]);
      assert ds[i].Value() == old(ds[i].Value());
      PortableWritable(f, ds[i], ws[i]);
    }
  }

  /** DeserializeSlice, of what SerializeSlice wrote. */
  method ReadSlice(data: seq<Byte>, ghost ws: seq<Image>, f: Float64, now: int) returns (r: Result<seq<DDSketch>>)
    requires |ws| < U32 && data == EncodeSlice(Encodings(f, ws))
    requires forall i :: 0 <= i < |ws| ==> Writable(f, ws[i]) && (ws[i].sparse ==> |ws[i].s.bins| <= 1000)
    ensures r.Ok? && |r.value| == |ws|
    ensures forall i :: 0 <= i < |ws| ==> fresh(r.value[i]) && fresh(r.value[i].Repr()) && Holds(r.value[i], ws[i])
  {
    hide Encode, EncodeSlice, Encodings, Decode, DecodeSlice, Writable, ReadFrom, SketchOf, SliceReadable, Holds;
    SketchSliceRoundTrip(f, ws);
    r := DeserializeSlice(data, f, now);
    assert r.Ok?;
    forall i | 0 <= i < |ws| ensures Holds(r.value[i], ws[i]) {
      ReadBack(f, ws[i], Encodings(f, ws)[i], r.value[i]);
    }
  }

  /** SerializeSlice and then DeserializeSlice, on objects: any list of sketches comes back as new objects of the same
      values and store kinds, in order. */
  method WriteAndReadSlice(ds: seq<DDSketch>, f: Float64, now: int) returns (r: Result<seq<DDSketch>>)
    requires |ds| < U32 && forall i :: 0 <= i < |ds| ==> ds[i].Valid() && Portable(f, ds[i])
    ensures r.Ok? && |r.value| == |ds|
    ensures forall i :: 0 <= i < |ds| ==>
              && fresh(r.value[i]) && fresh(r.value[i].Repr()) && r.value[i].Valid()
              && r.value[i].Value() == old(ds[i].Value()) && r.value[i].useSparseStore == old(ds[i].useSparseStore)
  {
    hide EncodeSlice, Encodings, Writable, DDSketch.Valid, DDSketch.Value, Portable, Enumerates;
    var data;
    ghost var ws;
    data, ws := WriteSlice(ds, f);
    r := ReadSlice(data, ws, f, now);
  }

  /** The outcome of MergeBytes: data that is refused or has another gamma changes nothing, other data is merged as
      the sketch it loads into. */
  ghost predicate BytesMerged(image: Result<Image>, before: Sketch, wasSparse: bool, theirs: Sketch, r: Result<()>,
                              checked: bool, density: real, threshold: real, low: nat, after: Sketch, isSparse: bool)
  {
    && (r.Err? ==> after == before)
    && (image.Err? ==> r == Err(image.error))
    && (image.Ok? ==>
      && Loaded(SketchOf(image.value), image.value.sparse, theirs)
      && r == (if before.gamma == theirs.gamma then Ok(()) else Err(IncompatibleSketches))
      && (r.Ok? ==> MergedWith(before, wasSparse, theirs, checked, density, threshold, low, after, isSparse)))
  }

  /** Merges a serialised sketch by way of a temporary one; data that is refused changes nothing. */
  method MergeBytes(d: DDSketch, f: Float64, data: seq<Byte>, config: Config, now: int)
    returns (r: Result<()>, ghost theirs: Sketch)
    requires d.Valid() && config.Empty().Configured() && Readable(f, config.Empty(), data)
    modifies d.Repr()
    ensures d.Valid() && fresh(d.Repr() - old(d.Repr()))
    ensures BytesMerged(Decode(f, config.Empty(), data), old(d.Value()), old(d.useSparseStore), theirs, r,
                        d.autoSwitch && now - old(d.lastSwitch) >= SECOND, old(d.store.DensityWith(theirs.bins)),
                        d.switchThreshold, d.Threshold(), d.Value(), d.useSparseStore)
  {
    hide Decode, GoodImage, Loaded, MergedWith, SketchOf, DDSketch.Valid, Store.Buckets, Store.DensityWith;
    var temp;
    r, temp := FromBytesNew(f, data, config, now);
    theirs := temp.Value();
    if r.Ok? {
      r := d.Merge(temp, now);
    }
  }
}

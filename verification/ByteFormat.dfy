/** serialization.go: the binary layout of a sketch and of a list of sketches. */
module ByteFormat {
  import opened SketchSpec

  type Byte = x: int | 0 <= x < 256

  const U32: int := 0x1_0000_0000
  const U64: int := 0x1_0000_0000_0000_0000

  const MAGIC: seq<Byte> := [68, 68, 83, 75]
  const VERSION: Byte := 1

  /** The bit pattern of a float64 and back: math.Float64bits and math.Float64frombits. */
  datatype Float64 = Float64(bits: real -> nat, value: nat -> real) {

    /** `x` is a number that the 64 bits represent exactly, as every field of a running sketch is. */
    ghost predicate Exact(x: real) {
      bits(x) < U64 && value(bits(x)) == x
    }
  }

  // ----- little-endian integers -----

  function Pow256(k: nat): (p: nat)
    ensures p > 0
  {
    if k == 0 then 1 else 256 * Pow256(k - 1)
  }

  function Put(n: nat, k: nat): (s: seq<Byte>)
    ensures |s| == k
    decreases k
  {
    if k == 0 then [] else [n % 256] + Put(n / 256, k - 1)
  }

  function Value(s: seq<Byte>): nat {
    if s == [] then 0 else s[0] + 256 * Value(s[1..])
  }

  /** Reading back the low `k` bytes of a number gives the number modulo 256^k. */
  lemma {:induction false} ValueOfPut(n: nat, k: nat)
    requires n < Pow256(k)
    ensures Value(Put(n, k)) == n
    decreases k
  {
    if k == 0 {
    } else {
      ValueOfPut(n / 256, k - 1);
      assert Put(n, k)[1..] == Put(n / 256, k - 1);
    }
  }

  lemma Widths()
    ensures Pow256(4) == U32 && Pow256(8) == U64
  {
    assert Pow256(2) == 0x1_0000;
    assert Pow256(4) == 0x1_0000_0000;
    assert Pow256(6) == 0x1_0000_0000_0000;
  }

  /** binary.Read: the next `k` bytes as a number, or the old value when too few bytes are left. */
  function Take(s: seq<Byte>, k: nat, old': nat): (r: (nat, seq<Byte>)) {
    if |s| >= k then (Value(s[..k]), s[k..]) else (old', [])
  }

  lemma TakePut(n: nat, k: nat, rest: seq<Byte>, old': nat)
    requires n < Pow256(k)
    ensures Take(Put(n, k) + rest, k, old') == (n, rest)
  {
    ValueOfPut(n, k);
    assert (Put(n, k) + rest)[..k] == Put(n, k);
    assert (Put(n, k) + rest)[k..] == rest;
  }

  /** int32 in two's complement; the conversion from int keeps the low 32 bits. */
  function ToU32(i: int): (n: nat)
    ensures n < U32
  {
    i % U32
  }

  function FromU32(n: nat): int { if n % U32 >= U32 / 2 then n % U32 - U32 else n % U32 }

  lemma Int32RoundTrip(i: int)
    ensures FromU32(ToU32(i)) == i <==> -U32 / 2 <= i < U32 / 2
  {}

  // ----- one bucket -----

  function PutItem(item: (int, nat)): (s: seq<Byte>)
    ensures |s| == 12
  {
    Put(ToU32(item.0), 4) + Put(item.1 % U64, 8)
  }

  function TakeItem(s: seq<Byte>): ((int, nat), seq<Byte>) {
    var (i, s1) := Take(s, 4, 0);
    var (c, s2) := Take(s1, 8, 0);
    ((FromU32(i), c), s2)
  }

  ghost predicate ItemFits(item: (int, nat)) {
    -U32 / 2 <= item.0 < U32 / 2 && item.1 < U64
  }

  lemma TakePutItem(item: (int, nat), rest: seq<Byte>)
    requires ItemFits(item)
    ensures TakeItem(PutItem(item) + rest) == (item, rest)
  {
    hide Put, Take, Pow256, ToU32, FromU32;
    Widths();
    Int32RoundTrip(item.0);
    var tail := Put(item.1 % U64, 8) + rest;
    assert PutItem(item) + rest == Put(ToU32(item.0), 4) + tail;
    TakePut(ToU32(item.0), 4, tail, 0);
    TakePut(item.1, 8, rest, 0);
  }

  function PutItems(items: seq<(int, nat)>): seq<Byte> {
    if items == [] then [] else PutItem(items[0]) + PutItems(items[1..])
  }

  function TakeItems(s: seq<Byte>, n: nat): (items: seq<(int, nat)>)
    ensures |items| == n
    decreases n
  {
    if n == 0 then []
    else
      var (item, rest) := TakeItem(s);
      [item] + TakeItems(rest, n - 1)
  }

  lemma {:induction false} TakePutItems(items: seq<(int, nat)>)
    requires forall i :: 0 <= i < |items| ==> ItemFits(items[i])
    ensures TakeItems(PutItems(items), |items|) == items
  {
    hide PutItem, TakeItem;
    if items == [] {
    } else {
      TakePutItem(items[0], PutItems(items[1..]));
      TakePutItems(items[1..]);
    }
  }

  // ----- a sketch -----

  function PutReal(f: Float64, x: real): (s: seq<Byte>)
    ensures |s| == 8
  {
    Put(f.bits(x) % U64, 8)
  }

  function TakeReal(f: Float64, s: seq<Byte>, old': real): (real, seq<Byte>) {
    if |s| >= 8 then (f.value(Take(s, 8, 0).0), Take(s, 8, 0).1) else (old', [])
  }

  lemma TakePutReal(f: Float64, x: real, rest: seq<Byte>, old': real)
    requires f.Exact(x)
    ensures TakeReal(f, PutReal(f, x) + rest, old') == (x, rest)
  {
    hide Put, Take, Pow256;
    Widths();
    TakePut(f.bits(x), 8, rest, 0);
  }

  /** min and max are written only when they are finite. */
  function PutExt(f: Float64, x: Ext): seq<Byte> {
    if x.Fin? then PutReal(f, x.v) else []
  }

  function TakeExt(f: Float64, has: bool, s: seq<Byte>, none: Ext): (Ext, seq<Byte>) {
    if !has then (none, s)
    else if |s| >= 8 then (Fin(TakeReal(f, s, 0.0).0), TakeReal(f, s, 0.0).1)
    else (none, [])
  }

  lemma TakePutExt(f: Float64, x: Ext, rest: seq<Byte>, none: Ext)
    requires if x.Fin? then f.Exact(x.v) else x == none
    ensures TakeExt(f, x.Fin?, PutExt(f, x) + rest, none) == (x, rest)
  {
    if x.Fin? {
      TakePutReal(f, x.v, rest, 0.0);
    } else {
      assert PutExt(f, x) + rest == rest;
    }
  }

  function Flag(set': bool, bit: nat): nat { if set' then bit else 0 }

  function Flags(s: Sketch, sparse: bool): Byte {
    Flag(sparse, 1) + Flag(s.min.Fin?, 2) + Flag(s.max.Fin?, 4) + Flag(s.sum > 0.0, 8)
  }

  function SumExt(s: Sketch): Ext { if s.sum > 0.0 then Fin(s.sum) else PosInf }

  function Statistics(f: Float64, s: Sketch, items: seq<(int, nat)>): seq<Byte> {
    Put(s.count % U64, 8) +
    (PutExt(f, s.min) + (PutExt(f, s.max) + (PutExt(f, SumExt(s)) + (Put(|items| % U32, 4) + PutItems(items)))))
  }

  function Parameters(f: Float64, s: Sketch, items: seq<(int, nat)>): seq<Byte> {
    PutReal(f, s.gamma) + (PutReal(f, s.minValue) + (PutReal(f, s.maxValue) + Statistics(f, s, items)))
  }

  /** Everything Bytes writes, its buckets in the order `items`. */
  function Encode(f: Float64, s: Sketch, sparse: bool, items: seq<(int, nat)>): seq<Byte> {
    MAGIC + [VERSION, Flags(s, sparse)] + Parameters(f, s, items)
  }

  /** Everything FromBytes reads: the sketch, and its buckets in the order they are read. */
  datatype Image = Image(s: Sketch, sparse: bool, items: seq<(int, nat)>)

  function DecodeStatistics(f: Float64, s: Sketch, flags: Byte, s3: seq<Byte>): (Sketch, nat, seq<Byte>) {
    var (count, s4) := Take(s3, 8, 0);
    var (min, s5) := TakeExt(f, flags / 2 % 2 == 1, s4, PosInf);
    var (max, s6) := TakeExt(f, flags / 4 % 2 == 1, s5, NegInf);
    var (sum, s7) := TakeExt(f, flags / 8 % 2 == 1, s6, PosInf);
    var (n, s8) := Take(s7, 4, 0);
    (s.(count := count, min := min, max := max, sum := if sum.Fin? then sum.v else 0.0), n, s8)
  }

  /** Parameters, statistics, the number of buckets, and the bytes that follow. */
  function DecodeBody(f: Float64, gamma0: real, minValue0: real, maxValue0: real, flags: Byte, body: seq<Byte>)
    : (Sketch, nat, seq<Byte>)
  {
    var (gamma, s1) := TakeReal(f, body, gamma0);
    var (minValue, s2) := TakeReal(f, s1, minValue0);
    var (maxValue, s3) := TakeReal(f, s2, maxValue0);
    DecodeStatistics(f, Sketch(gamma, minValue, maxValue, map[], 0, 0.0, PosInf, NegInf), flags, s3)
  }

  /** FromBytes, from bytes to values. The parameters of `before`, the sketch it reads into, stay where the data
      ends early. */
  function Decode(f: Float64, before: Sketch, data: seq<Byte>): (r: Result<Image>)
    ensures r.Err? ==> r.error == BadData
  {
    if |data| < 38 || data[..4] != MAGIC || data[4] != VERSION then Err(BadData)
    else
      var (s, n, buf) := DecodeBody(f, before.gamma, before.minValue, before.maxValue, data[5], data[6..]);
      Ok(Image(s, data[5] % 2 == 1, TakeItems(buf, n)))
  }

  /** A sketch the format can hold: exact floats, numbers within their widths, min and max with their own
      infinities only. */
  ghost predicate Encodable(f: Float64, s: Sketch, items: seq<(int, nat)>) {
    && f.Exact(s.gamma) && f.Exact(s.minValue) && f.Exact(s.maxValue) && f.Exact(s.sum) && s.sum >= 0.0
    && (if s.min.Fin? then f.Exact(s.min.v) else s.min == PosInf)
    && (if s.max.Fin? then f.Exact(s.max.v) else s.max == NegInf)
    && s.count < U64 && |items| < U32
    && forall i :: 0 <= i < |items| ==> ItemFits(items[i])
  }

  lemma FlagBits(a: bool, b: bool, c: bool, d: bool)
    ensures var n := Flag(a, 1) + Flag(b, 2) + Flag(c, 4) + Flag(d, 8);
            n < 16 && a == (n % 2 == 1) && b == (n / 2 % 2 == 1) && c == (n / 4 % 2 == 1) && d == (n / 8 % 2 == 1)
  {}

  lemma StatisticsRoundTrip(f: Float64, s: Sketch, sparse: bool, items: seq<(int, nat)>, before: Sketch)
    requires Encodable(f, s, items)
    ensures DecodeStatistics(f, before, Flags(s, sparse), Statistics(f, s, items)) ==
            (before.(count := s.count, min := s.min, max := s.max, sum := s.sum), |items|, PutItems(items))
  {
    hide Put, Take, PutReal, TakeReal, PutExt, TakeExt, PutItems, Flag, Pow256;
    Widths();
    FlagBits(sparse, s.min.Fin?, s.max.Fin?, s.sum > 0.0);
    var t8 := PutItems(items);
    var t7 := Put(|items| % U32, 4) + t8;
    var t6 := PutExt(f, SumExt(s)) + t7;
    var t5 := PutExt(f, s.max) + t6;
    var t4 := PutExt(f, s.min) + t5;
    TakePut(s.count, 8, t4, 0);
    TakePutExt(f, s.min, t5, PosInf);
    TakePutExt(f, s.max, t6, NegInf);
    TakePutExt(f, SumExt(s), t7, PosInf);
    TakePut(|items|, 4, t8, 0);
  }

  lemma StatisticsLength(f: Float64, s: Sketch, items: seq<(int, nat)>)
    ensures |Statistics(f, s, items)| >= 8
  {}

  /** FromBytes reads back everything Bytes wrote, for every order of the buckets. */
  lemma EncodeRoundTrip(f: Float64, s: Sketch, sparse: bool, items: seq<(int, nat)>, before: Sketch)
    requires Encodable(f, s, items)
    ensures Decode(f, before, Encode(f, s, sparse, items)) == Ok(Image(s.(bins := map[]), sparse, items))
  {
    hide Put, Take, PutReal, TakeReal, Flag, Statistics, DecodeStatistics, TakeItems, PutItems;
    var data := Encode(f, s, sparse, items);
    FlagBits(sparse, s.min.Fin?, s.max.Fin?, s.sum > 0.0);
    var t3 := Statistics(f, s, items);
    var t2 := PutReal(f, s.maxValue) + t3;
    var t1 := PutReal(f, s.minValue) + t2;
    StatisticsLength(f, s, items);
    assert data[..4] == MAGIC && data[4] == VERSION && data[5] == Flags(s, sparse);
    assert data[6..] == PutReal(f, s.gamma) + t1;
    TakePutReal(f, s.gamma, t1, before.gamma);
    TakePutReal(f, s.minValue, t2, before.minValue);
    TakePutReal(f, s.maxValue, t3, before.maxValue);
    StatisticsRoundTrip(f, s, sparse, items, Sketch(s.gamma, s.minValue, s.maxValue, map[], 0, 0.0, PosInf, NegInf));
    TakePutItems(items);
  }

  lemma {:induction false} PutItemsLength(items: seq<(int, nat)>)
    ensures |PutItems(items)| == 12 * |items|
  {
    hide PutItem;
    if items == [] {
    } else {
      PutItemsLength(items[1..]);
    }
  }

  /** At most 66 bytes, and 12 for each bucket. */
  lemma EncodeLength(f: Float64, s: Sketch, sparse: bool, items: seq<(int, nat)>)
    ensures |Encode(f, s, sparse, items)| <= 66 + 12 * |items|
  {
    hide Put, PutReal, PutItems;
    PutItemsLength(items);
  }

  // ----- where everything stands -----

  lemma PutOne(n: nat, k: nat)
    ensures Put(n, k + 1) == [n % 0x100] + Put(n / 0x100, k)
  {}

  lemma Divisions(n: nat)
    ensures n / 0x100 / 0x100 == n / 0x1_0000 && n / 0x1_0000 / 0x100 == n / 0x100_0000
    ensures n / 0x100_0000 / 0x100 == n / 0x1_0000_0000
  {}

  /** Little-endian: the lowest byte comes first. */
  lemma PutFour(n: nat)
    ensures Put(n, 4) == [n % 0x100, n / 0x100 % 0x100, n / 0x1_0000 % 0x100, n / 0x100_0000 % 0x100]
  {
    assert Put(n / 0x1_0000_0000, 0) == [];
    hide Put;
    Divisions(n);
    PutOne(n, 3);
    PutOne(n / 0x100, 2);
    PutOne(n / 0x1_0000, 1);
    PutOne(n / 0x100_0000, 0);
  }

  /** Eight bytes are the low four and then the high four. */
  lemma PutEight(n: nat)
    ensures Put(n, 8) == Put(n, 4) + Put(n / 0x1_0000_0000, 4)
  {
    hide Put;
    Divisions(n);
    PutFour(n);
    PutOne(n, 7);
    PutOne(n / 0x100, 6);
    PutOne(n / 0x1_0000, 5);
    PutOne(n / 0x100_0000, 4);
  }

  /** The index of a bucket is written in two's complement. */
  lemma TwosComplement(i: int)
    requires -0x8000_0000 <= i < 0x8000_0000
    ensures ToU32(i) == if i >= 0 then i else i + 0x1_0000_0000
  {}

  /** How many bytes an optional number takes. */
  function Width(some: bool): nat { if some then 8 else 0 }

  /** The bytes from `at` on start with `part`. */
  ghost predicate Has(data: seq<Byte>, at: nat, part: seq<Byte>) {
    at + |part| <= |data| && data[at..at + |part|] == part
  }

  lemma HasFirst(part: seq<Byte>, rest: seq<Byte>)
    ensures Has(part + rest, 0, part)
  {
    assert (part + rest)[0..|part|] == part;
  }

  lemma HasWithin(before: seq<Byte>, rest: seq<Byte>, at: nat, part: seq<Byte>)
    requires Has(rest, at, part)
    ensures Has(before + rest, |before| + at, part)
  {
    assert (before + rest)[|before| + at..|before| + at + |part|] == rest[at..at + |part|];
  }

  lemma HasLast(before: seq<Byte>, part: seq<Byte>)
    ensures Has(before + part, |before|, part)
  {
    assert (before + part)[|before|..|before| + |part|] == part;
  }

  /** The parts of a concatenation of four. */
  lemma HasFour(a: seq<Byte>, b: seq<Byte>, c: seq<Byte>, d: seq<Byte>)
    ensures var data := a + (b + (c + d));
            Has(data, 0, a) && Has(data, |a|, b) && Has(data, |a| + |b|, c) && Has(data, |a| + |b| + |c|, d)
  {
    hide Has;
    HasFirst(a, b + (c + d));
    HasFirst(b, c + d);
    HasFirst(c, d);
    HasLast(c, d);
    HasWithin(a, b + (c + d), 0, b);
    HasWithin(b, c + d, 0, c);
    HasWithin(a, b + (c + d), |b|, c);
    HasWithin(b, c + d, |c|, d);
    HasWithin(a, b + (c + d), |b| + |c|, d);
  }

  /** What stands in a part stands in the whole. */
  lemma HasInside(data: seq<Byte>, at: nat, part: seq<Byte>, i: nat, piece: seq<Byte>)
    requires Has(data, at, part) && Has(part, i, piece)
    ensures Has(data, at + i, piece)
  {
    forall k | 0 <= k < |piece| ensures data[at + i + k] == piece[k] {
      assert data[at..at + |part|][i + k] == part[i + k] == part[i..i + |piece|][k];
    }
    assert data[at + i..at + i + |piece|] == piece;
  }

  /** Six bytes come first: the letters DDSK, version 1, and a byte of flags. */
  lemma FlagsLayout(f: Float64, s: Sketch, sparse: bool, items: seq<(int, nat)>)
    ensures var data := Encode(f, s, sparse, items);
            && Has(data, 0, [68, 68, 83, 75, 1]) && Has(data, 6, Parameters(f, s, items))
            && |data| >= 38 && 0 <= data[5] < 16
            && (data[5] % 2 == 1 <==> sparse) && (data[5] / 2 % 2 == 1 <==> s.min.Fin?)
            && (data[5] / 4 % 2 == 1 <==> s.max.Fin?) && (data[5] / 8 % 2 == 1 <==> s.sum > 0.0)
  {
    hide Put, PutReal, Flag, PutExt, PutItems;
    FlagBits(sparse, s.min.Fin?, s.max.Fin?, s.sum > 0.0);
    var head := MAGIC + [VERSION, Flags(s, sparse)];
    HasLast(head, Parameters(f, s, items));
    assert Encode(f, s, sparse, items)[0..5] == [68, 68, 83, 75, 1];
  }

  lemma CountFirst(f: Float64, s: Sketch, items: seq<(int, nat)>)
    ensures var t := Statistics(f, s, items);
            && Has(t, 0, Put(s.count % U64, 8))
            && Has(t, 8, PutExt(f, s.min) + (PutExt(f, s.max) +
                         (PutExt(f, SumExt(s)) + (Put(|items| % U32, 4) + PutItems(items)))))
  {
    hide Has, Put, PutExt, PutItems;
    var c := Put(s.count % U64, 8);
    var rest := PutExt(f, s.min) +
      (PutExt(f, s.max) + (PutExt(f, SumExt(s)) + (Put(|items| % U32, 4) + PutItems(items))));
    HasFirst(c, rest);
    HasLast(c, rest);
  }

  /** Behind them gamma, the bounds and the count. */
  lemma ParametersLayout(f: Float64, s: Sketch, sparse: bool, items: seq<(int, nat)>)
    ensures var data := Encode(f, s, sparse, items);
            && Has(data, 6, PutReal(f, s.gamma)) && Has(data, 14, PutReal(f, s.minValue))
            && Has(data, 22, PutReal(f, s.maxValue)) && Has(data, 30, Put(s.count % U64, 8))
            && Has(data, 30, Statistics(f, s, items))
  {
    hide Has, Put, PutReal, Encode, PutExt, PutItems;
    var data, p, t := Encode(f, s, sparse, items), Parameters(f, s, items), Statistics(f, s, items);
    FlagsLayout(f, s, sparse, items);
    HasFour(PutReal(f, s.gamma), PutReal(f, s.minValue), PutReal(f, s.maxValue), t);
    HasInside(data, 6, p, 0, PutReal(f, s.gamma));
    HasInside(data, 6, p, 8, PutReal(f, s.minValue));
    HasInside(data, 6, p, 16, PutReal(f, s.maxValue));
    HasInside(data, 6, p, 24, t);
    CountFirst(f, s, items);
    HasInside(data, 30, t, 0, Put(s.count % U64, 8));
  }

  lemma FiveInside(data: seq<Byte>, at: nat, a: seq<Byte>, b: seq<Byte>, c: seq<Byte>, d: seq<Byte>, e: seq<Byte>)
    requires Has(data, at, a + (b + (c + (d + e))))
    ensures Has(data, at, a) && Has(data, at + |a|, b) && Has(data, at + |a| + |b|, c)
    ensures Has(data, at + |a| + |b| + |c|, d) && Has(data, at + |a| + |b| + |c| + |d|, e)
  {
    hide Has;
    var rest := a + (b + (c + (d + e)));
    HasFour(a, b, c, d + e);
    HasFirst(d, e);
    HasLast(d, e);
    HasInside(data, at, rest, 0, a);
    HasInside(data, at, rest, |a|, b);
    HasInside(data, at, rest, |a| + |b|, c);
    HasInside(data, at, rest, |a| + |b| + |c|, d + e);
    HasInside(data, at + |a| + |b| + |c|, d + e, 0, d);
    HasInside(data, at + |a| + |b| + |c|, d + e, |d|, e);
  }

  /** A number is written in eight bytes, an infinity not at all. */
  lemma ExtWidth(f: Float64, x: Ext)
    ensures |PutExt(f, x)| == Width(x.Fin?) && (x.Fin? ==> PutExt(f, x) == PutReal(f, x.v))
  {}

  /** Then min, max and sum as far as there are any, the number of buckets, and the buckets. */
  lemma BodyLayout(f: Float64, s: Sketch, sparse: bool, items: seq<(int, nat)>)
    ensures var data := Encode(f, s, sparse, items);
            var max := 38 + Width(s.min.Fin?);
            var sum := max + Width(s.max.Fin?);
            var n := sum + Width(s.sum > 0.0);
            && Has(data, 38, PutExt(f, s.min)) && Has(data, max, PutExt(f, s.max))
            && Has(data, sum, PutExt(f, if s.sum > 0.0 then Fin(s.sum) else PosInf))
            && Has(data, n, Put(|items| % U32, 4)) && Has(data, n + 4, PutItems(items))
  {
    hide Has, Put, PutReal, PutExt, Encode, Statistics, PutItems;
    var a, b, c := PutExt(f, s.min), PutExt(f, s.max), PutExt(f, SumExt(s));
    var d, e := Put(|items| % U32, 4), PutItems(items);
    var data, t, rest := Encode(f, s, sparse, items), Statistics(f, s, items), a + (b + (c + (d + e)));
    ParametersLayout(f, s, sparse, items);
    CountFirst(f, s, items);
    HasInside(data, 30, t, 8, rest);
    ExtWidth(f, s.min);
    ExtWidth(f, s.max);
    ExtWidth(f, SumExt(s));
    FiveInside(data, 38, a, b, c, d, e);
  }

  /** Bucket `i` stands 12 bytes after the one before: its index and then its count. */
  lemma {:induction false} ItemLayout(items: seq<(int, nat)>, i: nat)
    requires i < |items|
    ensures var data := PutItems(items);
            Has(data, 12 * i, Put(ToU32(items[i].0), 4)) && Has(data, 12 * i + 4, Put(items[i].1 % U64, 8))
  {
    hide Put;
    var rest := PutItems(items[1..]);
    if i == 0 {
      var a, b := Put(ToU32(items[0].0), 4), Put(items[0].1 % U64, 8);
      HasFirst(a, b + rest);
      HasFirst(b, rest);
      HasWithin(a, b + rest, 0, b);
      assert PutItems(items) == a + (b + rest);
    } else {
      ItemLayout(items[1..], i - 1);
      HasWithin(PutItem(items[0]), rest, 12 * (i - 1), Put(ToU32(items[i].0), 4));
      HasWithin(PutItem(items[0]), rest, 12 * (i - 1) + 4, Put(items[i].1 % U64, 8));
    }
  }

  /** What the header checks refuse, and nothing else. */
  lemma RefusedIff(f: Float64, before: Sketch, data: seq<Byte>)
    ensures Decode(f, before, data).Err? <==> |data| < 38 || !Has(data, 0, [68, 68, 83, 75, 1])
  {
    hide DecodeBody, TakeItems;
    if |data| >= 38 {
      assert data[0..5] == data[..4] + [data[4]];
    }
  }

  // ----- a list of sketches -----

  function PutBlobs(blobs: seq<seq<Byte>>): seq<Byte> {
    if blobs == [] then [] else Put(|blobs[0]| % U32, 4) + (blobs[0] + PutBlobs(blobs[1..]))
  }

  /** SerializeSlice, given the encodings of the sketches: their number, then each with its length in front. */
  function EncodeSlice(blobs: seq<seq<Byte>>): seq<Byte> {
    Put(|blobs| % U32, 4) + PutBlobs(blobs)
  }

  function TakeBlob(s: seq<Byte>): (seq<Byte>, seq<Byte>) {
    var (size, s1) := Take(s, 4, 0);
    var got := if size <= |s1| then size else |s1|;
    (s1[..got] + seq(size - got, _ => 0), s1[got..])
  }

  function TakeBlobs(s: seq<Byte>, n: nat): (blobs: seq<seq<Byte>>)
    ensures |blobs| == n
    decreases n
  {
    if n == 0 then []
    else
      var (blob, rest) := TakeBlob(s);
      [blob] + TakeBlobs(rest, n - 1)
  }

  /** DeserializeSlice, as far as the encodings of the sketches; a short read leaves zeros in the buffer. */
  function DecodeSlice(data: seq<Byte>): Result<seq<seq<Byte>>> {
    if |data| < 4 then Err(BadData)
    else
      var (n, rest) := Take(data, 4, 0);
      Ok(TakeBlobs(rest, n))
  }

  lemma {:induction false} TakePutBlobs(blobs: seq<seq<Byte>>)
    requires forall i :: 0 <= i < |blobs| ==> |blobs[i]| < U32
    ensures TakeBlobs(PutBlobs(blobs), |blobs|) == blobs
  {
    hide Put, Take, Pow256;
    if blobs == [] {
    } else {
      Widths();
      var blob, rest := blobs[0], PutBlobs(blobs[1..]);
      TakePut(|blob|, 4, blob + rest, 0);
      assert (blob + rest)[..|blob|] + seq(0, _ => 0) == blob;
      assert (blob + rest)[|blob|..] == rest;
      TakePutBlobs(blobs[1..]);
    }
  }

  /** The length-prefixed form gives back any list of encodings. */
  lemma SliceRoundTrip(blobs: seq<seq<Byte>>)
    requires |blobs| < U32 && forall i :: 0 <= i < |blobs| ==> |blobs[i]| < U32
    ensures DecodeSlice(EncodeSlice(blobs)) == Ok(blobs)
  {
    hide Put, Take, Pow256;
    Widths();
    TakePut(|blobs|, 4, PutBlobs(blobs), 0);
    TakePutBlobs(blobs);
  }

  function Lengths(blobs: seq<seq<Byte>>): nat {
    if blobs == [] then 0 else Lengths(blobs[..|blobs| - 1]) + 4 + |blobs[|blobs| - 1]|
  }

  lemma {:induction false} PutBlobsSplit(blobs: seq<seq<Byte>>, i: nat)
    requires i <= |blobs|
    ensures PutBlobs(blobs) == PutBlobs(blobs[..i]) + PutBlobs(blobs[i..])
    decreases i
  {
    hide Put;
    if i == 0 {
      assert blobs[..0] == [] && blobs[0..] == blobs;
    } else {
      PutBlobsSplit(blobs[1..], i - 1);
      assert blobs[..i][1..] == blobs[1..][..i - 1] && blobs[1..][i - 1..] == blobs[i..];
    }
  }

  lemma {:induction false} PutBlobsLength(blobs: seq<seq<Byte>>)
    ensures |PutBlobs(blobs)| == Lengths(blobs)
  {
    hide Put;
    if blobs == [] {
    } else {
      var n := |blobs| - 1;
      PutBlobsLength(blobs[..n]);
      PutBlobsSplit(blobs, n);
      assert blobs[n..] == [blobs[n]] && PutBlobs([blobs[n]]) == Put(|blobs[n]| % U32, 4) + (blobs[n] + PutBlobs([]));
    }
  }

  /** The number of sketches stands first; sketch `i` stands behind the earlier ones, with its length in front. */
  lemma SliceLayout(blobs: seq<seq<Byte>>, i: nat)
    requires i < |blobs|
    ensures var data, at := EncodeSlice(blobs), 4 + Lengths(blobs[..i]);
            && Has(data, 0, Put(|blobs| % U32, 4))
            && Has(data, at, Put(|blobs[i]| % U32, 4)) && Has(data, at + 4, blobs[i])
  {
    hide Put, Lengths;
    var n, l := Put(|blobs| % U32, 4), Put(|blobs[i]| % U32, 4);
    var before, rest := PutBlobs(blobs[..i]), PutBlobs(blobs[i + 1..]);
    PutBlobsSplit(blobs, i);
    PutBlobsLength(blobs[..i]);
    assert blobs[i..][1..] == blobs[i + 1..];
    HasFirst(n, PutBlobs(blobs));
    HasFour(n, before, l, blobs[i] + rest);
    HasFirst(blobs[i], rest);
    assert EncodeSlice(blobs) == n + (before + (l + (blobs[i] + rest)));
    HasInside(EncodeSlice(blobs), 4 + |before| + 4, blobs[i] + rest, 0, blobs[i]);
  }
}

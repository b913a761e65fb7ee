/** The latency histogram printer (spdk/scripts/histogram.py).

    Range i holds 2^granularity buckets; all buckets of a range are equally wide and
    from range 1 on each range is twice as wide as the one before.
 */
module Histogram {
  import opened Common
  import opened Bits

  datatype Params = Params(granularity: nat, minRange: nat, maxRange: nat)

  function Ranges(p: Params): nat { if p.minRange < p.maxRange then p.maxRange - p.minRange else 0 }

  function PerRange(p: Params): nat { Pow2(p.granularity) }

  // the upper end of bucket j of range i, as the loop computes it
  function BucketEnd(p: Params, i: nat, j: nat): nat {
    if i > 0 then Shl(1, i + p.granularity + p.minRange - 1) + Shl(j + 1, i + p.minRange - 1)
    else Shl(j + 1, p.minRange)
  }

  // the width of the buckets of range i, and where the range starts
  function Width(p: Params, i: nat): nat { if i > 0 then Shl(1, i + p.minRange - 1) else Shl(1, p.minRange) }
  function RangeStart(p: Params, i: nat): nat { if i > 0 then Shl(1, i + p.granularity + p.minRange - 1) else 0 }

  lemma {:induction false} MulSplit(a: nat, b: nat, w: nat)
    ensures (a + b) * w == a * w + b * w
  {
  }

  lemma {:induction false} RangesMeet(p: Params, i: nat)
    ensures RangeStart(p, i) + PerRange(p) * Width(p, i) == RangeStart(p, i + 1)
  {
    if i == 0 {
      Pow2Add(p.granularity, p.minRange);
    } else {
      var w := i + p.minRange - 1;
      Pow2Add(p.granularity, w);
      assert p.granularity + w == i + p.granularity + p.minRange - 1;
      assert Pow2(i + 1 + p.granularity + p.minRange - 1) == 2 * Pow2(i + p.granularity + p.minRange - 1);
    }
  }

  lemma {:induction false} Relative(p: Params, i: nat)
    requires i > 0
    ensures Width(p, i) * PerRange(p) <= RangeStart(p, i)
  {
    var w := i + p.minRange - 1;
    Pow2Add(w, p.granularity);
    assert w + p.granularity == i + p.granularity + p.minRange - 1;
  }

  // ---------------------------------------------------------------- buckets in order

  // A bucket with its number of entries and the number up to and including it.
  datatype Bucket = Bucket(i: nat, j: nat, start: nat, end: nat, count: nat, soFar: nat)

  // Consecutive buckets share their border; the first starts at 0.
  ghost predicate Tiles(bs: seq<Bucket>) {
    && (bs != [] ==> bs[0].start == 0)
    && (forall k, m :: 0 <= k && k + 1 == m < |bs| ==> bs[k].end == bs[m].start)
    && (forall k :: 0 <= k < |bs| ==> bs[k].start < bs[k].end)
  }

  // From range 1 on no bucket is wider than its start divided by the buckets per range.
  ghost predicate Precise(p: Params, bs: seq<Bucket>) {
    forall k :: 0 <= k < |bs| && bs[k].i > 0 ==> (bs[k].end - bs[k].start) * PerRange(p) <= bs[k].start
  }

  // Bucket k is number k % 2^granularity of range k / 2^granularity, and its width doubles
  // with every range from range 1 on.
  ghost predicate Placed(p: Params, bs: seq<Bucket>) {
    forall k :: 0 <= k < |bs| ==> PlacedAt(p, bs[k], k)
  }

  ghost predicate PlacedAt(p: Params, b: Bucket, k: nat) {
    && b.i == k / PerRange(p) && b.j == k % PerRange(p)
    && b.end - b.start == Pow2(p.minRange + if b.i == 0 then 0 else b.i - 1)
  }

  function Last(bs: seq<Bucket>): nat { if bs == [] then 0 else bs[|bs| - 1].end }

  lemma {:induction false} WidthPositive(p: Params, i: nat)
    ensures Width(p, i) > 0
  {
  }

  lemma {:induction false} BucketEnds(p: Params, i: nat, j: nat)
    ensures BucketEnd(p, i, j) == RangeStart(p, i) + (j + 1) * Width(p, i) == RangeStart(p, i) + j * Width(p, i) + Width(p, i)
  {
    MulSplit(j, 1, Width(p, i));
  }

  // Bucket b is the k-th.
  ghost predicate IsBucket(p: Params, b: Bucket, k: nat) {
    && b.j < PerRange(p) && k == b.i * PerRange(p) + b.j
    && b.start == RangeStart(p, b.i) + b.j * Width(p, b.i) && b.end == BucketEnd(p, b.i, b.j)
  }

  lemma {:induction false} BucketWide(p: Params, b: Bucket, k: nat)
    requires IsBucket(p, b, k)
    ensures b.end == b.start + Width(p, b.i) && b.start < b.end
  {
    BucketEnds(p, b.i, b.j);
    WidthPositive(p, b.i);
  }

  lemma {:induction false} BucketPlaced(p: Params, b: Bucket, k: nat)
    requires IsBucket(p, b, k)
    ensures PlacedAt(p, b, k)
  {
    BucketWide(p, b, k);
    DivModUnique(k, PerRange(p), b.i, b.j);
  }

  lemma {:induction false} BucketPrecise(p: Params, b: Bucket, k: nat)
    requires IsBucket(p, b, k) && b.i > 0
    ensures (b.end - b.start) * PerRange(p) <= b.start
  {
    BucketWide(p, b, k);
    Relative(p, b.i);
    NotBelow(RangeStart(p, b.i), b.j, Width(p, b.i));
    assert b.end - b.start == Width(p, b.i);
  }

  lemma {:induction false} NotBelow(a: nat, j: nat, w: nat)
    ensures a <= a + j * w
  {
  }

  // The next bucket starts where this one ends, in the same range or in the next.
  lemma {:induction false} BucketsMeet(p: Params, a: Bucket, b: Bucket, k: nat)
    requires IsBucket(p, a, k) && IsBucket(p, b, k + 1)
    ensures a.end == b.start
  {
    BucketEnds(p, a.i, a.j);
    var n := PerRange(p);
    DivModUnique(k + 1, n, b.i, b.j);
    if a.j + 1 < n {
      DivModUnique(k + 1, n, a.i, a.j + 1);
    } else {
      MulSplit(a.i, 1, n);
      DivModUnique(k + 1, n, a.i + 1, 0);
      RangesMeet(p, a.i);
    }
  }

  lemma {:induction false} FirstBucket(p: Params, b: Bucket)
    requires IsBucket(p, b, 0)
    ensures b.start == 0
  {
    DivModUnique(0, PerRange(p), b.i, b.j);
    DivModUnique(0, PerRange(p), 0, 0);
  }

  ghost predicate AllBuckets(p: Params, bs: seq<Bucket>) { forall k :: 0 <= k < |bs| ==> IsBucket(p, bs[k], k) }

  /** The buckets as the loops compute them, one after the other: they tile the range, are
      precise, and double in width from range to range. */
  lemma {:induction false} BucketsTile(p: Params, bs: seq<Bucket>)
    requires AllBuckets(p, bs)
    ensures Tiles(bs) && Precise(p, bs) && Placed(p, bs)
  {
    if bs != [] { FirstBucket(p, bs[0]); }
    forall k, m | 0 <= k && k + 1 == m < |bs| ensures bs[k].end == bs[m].start { BucketsMeet(p, bs[k], bs[m], k); }
    forall k | 0 <= k < |bs| ensures bs[k].start < bs[k].end { BucketWide(p, bs[k], k); }
    forall k | 0 <= k < |bs| && bs[k].i > 0 ensures (bs[k].end - bs[k].start) * PerRange(p) <= bs[k].start {
      BucketPrecise(p, bs[k], k);
    }
    forall k | 0 <= k < |bs| ensures PlacedAt(p, bs[k], k) { BucketPlaced(p, bs[k], k); }
  }

  // ---------------------------------------------------------------- counts

  // int.from_bytes(bytes, 'little')
  function FromBytes(s: seq<Byte>): nat {
    if s == [] then 0 else s[0] + 256 * FromBytes(s[1..])
  }

  // Byte i stands for itself times 256^i, over the first n bytes.
  ghost function Weighted(s: seq<Byte>, n: nat): nat
    requires n <= |s|
  {
    if n == 0 then 0 else Weighted(s, n - 1) + s[n - 1] * Pow2(8 * (n - 1))
  }

  lemma {:induction false} WeightedTail(s: seq<Byte>, n: nat)
    requires 0 < n <= |s|
    ensures Weighted(s, n) == s[0] + 256 * Weighted(s[1..], n - 1)
  {
    if n > 1 {
      WeightedTail(s, n - 1);
      Pow2Add(8, 8 * (n - 2));
      assert s[1..][n - 2] == s[n - 1];
      TimesByte(s[n - 1], Pow2(8 * (n - 2)));
    }
  }

  lemma {:induction false} TimesByte(b: nat, p: nat)
    ensures b * (256 * p) == 256 * (b * p) && Pow2(8) == 256
  {
  }

  lemma {:induction false} FromBytesExact(s: seq<Byte>)
    ensures FromBytes(s) == Weighted(s, |s|)
  {
    if s != [] {
      FromBytesExact(s[1..]);
      WeightedTail(s, |s|);
    }
  }

  // histogram[index:index + 8], cut off at the end of the data
  function Slot(data: seq<Byte>, n: nat): seq<Byte> {
    var a := if 8 * n <= |data| then 8 * n else |data|;
    var b := if 8 * n + 8 <= |data| then 8 * n + 8 else |data|;
    data[a..b]
  }

  function Count(data: seq<Byte>, n: nat): nat { FromBytes(Slot(data, n)) }

  /** A count is the little-endian number in its eight bytes, or in those that are there. */
  lemma {:induction false} CountExact(data: seq<Byte>, n: nat)
    ensures 8 * n + 8 <= |data| ==> Count(data, n) == Weighted(data[8 * n..8 * n + 8], 8)
    ensures 8 * n < |data| < 8 * n + 8 ==> Count(data, n) == Weighted(data[8 * n..], |data| - 8 * n)
    ensures |data| <= 8 * n ==> Count(data, n) == 0
  {
    FromBytesExact(Slot(data, n));
    if 8 * n < |data| < 8 * n + 8 { assert Slot(data, n) == data[8 * n..]; }
  }

  function SumTo(data: seq<Byte>, n: nat): nat { if n == 0 then 0 else SumTo(data, n - 1) + Count(data, n - 1) }

  lemma {:induction false} SumGrows(data: seq<Byte>, m: nat, n: nat)
    requires m <= n
    ensures SumTo(data, m) <= SumTo(data, n)
  {
    if m < n { SumGrows(data, m, n - 1); }
  }

  function Percent(soFar: nat, total: nat): real
    requires total > 0
  {
    soFar as real * 100.0 / total as real
  }

  /** The cumulative percentage never falls and stays below 100 up to the last bucket. */
  lemma {:induction false} PercentGrowsBelow100(data: seq<Byte>, m: nat, n: nat, all: nat)
    requires m <= n <= all
    ensures var total := 1 + SumTo(data, all);
            0.0 <= Percent(SumTo(data, m), total) <= Percent(SumTo(data, n), total) < 100.0
  {
    var total := 1 + SumTo(data, all);
    SumGrows(data, m, n);
    SumGrows(data, n, all);
    Ratio(SumTo(data, m), SumTo(data, n), total);
  }

  lemma {:induction false} Ratio(a: nat, b: nat, total: nat)
    requires a <= b < total
    ensures 0.0 <= Percent(a, total) <= Percent(b, total) < 100.0
  {
    var t := total as real;
  }

  // ---------------------------------------------------------------- percentages in floating point

  // What is used of rounding: it keeps the order, and 0 and 1.
  ghost predicate Rounds(rnd: real -> real) {
    (forall x, y :: KeepsOrder(rnd, x, y)) && rnd(0.0) == 0.0 && rnd(1.0) == 1.0
  }

  ghost predicate KeepsOrder(rnd: real -> real, x: real, y: real) { x <= y ==> rnd(x) <= rnd(y) }

  // so_far * 100.0 / total with every conversion and operation rounded
  function RoundedPercent(rnd: real -> real, soFar: nat, total: nat): real
    requires rnd(total as real) > 0.0
  {
    rnd(rnd(rnd(soFar as real) * 100.0) / rnd(total as real))
  }

  lemma {:induction false} DivGrows(x: real, y: real, z: real)
    requires x <= y && z > 0.0
    ensures x / z <= y / z
  {
    assert y / z - x / z == (y - x) / z;
  }

  lemma {:induction false} RoundedOrder(rnd: real -> real, a: nat, b: nat, total: nat)
    requires Rounds(rnd) && a <= b && total > 0
    ensures rnd(total as real) > 0.0 && 0.0 <= RoundedPercent(rnd, a, total) <= RoundedPercent(rnd, b, total)
  {
    assert KeepsOrder(rnd, 0.0, a as real) && KeepsOrder(rnd, a as real, b as real) && KeepsOrder(rnd, 1.0, total as real);
    var x, y, z := rnd(a as real) * 100.0, rnd(b as real) * 100.0, rnd(total as real);
    assert KeepsOrder(rnd, 0.0, x) && KeepsOrder(rnd, x, y);
    DivGrows(rnd(x), rnd(y), z);
    DivGrows(0.0, rnd(x), z);
    assert KeepsOrder(rnd, 0.0, rnd(x) / z) && KeepsOrder(rnd, rnd(x) / z, rnd(y) / z);
  }

  /** The cumulative percentage as the program computes it never falls either, whatever
      the rounding. */
  lemma {:induction false} RoundedPercentGrows(rnd: real -> real, data: seq<Byte>, m: nat, n: nat, all: nat)
    requires Rounds(rnd) && m <= n <= all
    ensures var total := 1 + SumTo(data, all);
            && rnd(total as real) > 0.0
            && 0.0 <= RoundedPercent(rnd, SumTo(data, m), total) <= RoundedPercent(rnd, SumTo(data, n), total)
  {
    SumGrows(data, m, n);
    RoundedOrder(rnd, SumTo(data, m), SumTo(data, n), 1 + SumTo(data, all));
  }

  // ---------------------------------------------------------------- the program

  method TotalCount(p: Params, data: seq<Byte>) returns (total: nat)
    ensures total == 1 + SumTo(data, Ranges(p) * PerRange(p))
  {
    total := 1;
    ghost var n := 0;
    for i := 0 to Ranges(p)
      invariant n == i * PerRange(p) && total == 1 + SumTo(data, n)
    {
      ghost var first := n;
      for j := 0 to PerRange(p)
        invariant n == first + j && total == 1 + SumTo(data, n)
      {
        total := total + Count(data, i * PerRange(p) + j);
        n := n + 1;
      }
      MulSplit(i, 1, PerRange(p));
    }
  }

  // Each bucket has its own count and that of all entries so far.
  ghost predicate Counted(data: seq<Byte>, bs: seq<Bucket>) {
    forall k :: 0 <= k < |bs| ==> bs[k].count == Count(data, k) && bs[k].soFar == SumTo(data, k + 1)
  }

  // so_far adds up the counts, and the total is one more than all of them.
  ghost predicate Accumulates(bs: seq<Bucket>, total: nat) {
    && (bs == [] ==> total == 1)
    && (bs != [] ==> bs[0].soFar == bs[0].count && total == bs[|bs| - 1].soFar + 1)
    && (forall k, m :: 0 <= k && k + 1 == m < |bs| ==> bs[m].soFar == bs[k].soFar + bs[m].count)
  }

  lemma {:induction false} CountedAccumulates(data: seq<Byte>, bs: seq<Bucket>)
    requires Counted(data, bs)
    ensures Accumulates(bs, 1 + SumTo(data, |bs|))
  {
    if bs != [] { assert SumTo(data, 1) == SumTo(data, 0) + Count(data, 0); }
    forall k, m | 0 <= k && k + 1 == m < |bs| ensures bs[m].soFar == bs[k].soFar + bs[m].count {
      assert SumTo(data, m + 1) == SumTo(data, m) + Count(data, m);
    }
  }

  // The percentages printed with the buckets never fall and stay below 100.
  ghost predicate Rising(bs: seq<Bucket>, total: nat)
    requires total > 0
  {
    forall k, m :: 0 <= k <= m < |bs| ==> Rises(bs[k].soFar, bs[m].soFar, total)
  }

  ghost predicate Rises(a: nat, b: nat, total: nat)
    requires total > 0
  {
    0.0 <= Percent(a, total) <= Percent(b, total) < 100.0
  }

  lemma {:induction false} CountedRises(data: seq<Byte>, bs: seq<Bucket>)
    requires Counted(data, bs)
    ensures Rising(bs, 1 + SumTo(data, |bs|))
  {
    var total := 1 + SumTo(data, |bs|);
    forall k, m | 0 <= k <= m < |bs| ensures Rises(bs[k].soFar, bs[m].soFar, total) {
      PercentGrowsBelow100(data, k + 1, m + 1, |bs|);
      assert Rises(SumTo(data, k + 1), SumTo(data, m + 1), total);
    }
  }

  // The printing loop before bucket j of range i, n buckets having been visited.
  ghost predicate Printed(p: Params, data: seq<Byte>, bs: seq<Bucket>, bucket: nat, soFar: nat, n: nat) {
    AllBuckets(p, bs) && Counted(data, bs) && |bs| == n && soFar == SumTo(data, n) && bucket == Last(bs)
  }

  lemma {:induction false} PrintedStep(p: Params, data: seq<Byte>, bs: seq<Bucket>, bucket: nat, soFar: nat, n: nat, i: nat, j: nat)
    requires Printed(p, data, bs, bucket, soFar, n) && n == i * PerRange(p) + j
    requires j < PerRange(p) && bucket == RangeStart(p, i) + j * Width(p, i)
    ensures var end, count := BucketEnd(p, i, j), Count(data, n);
            && Printed(p, data, bs + [Bucket(i, j, bucket, end, count, soFar + count)], end, soFar + count, n + 1)
            && end == RangeStart(p, i) + (j + 1) * Width(p, i)
  {
    var count := Count(data, n);
    var b := Bucket(i, j, bucket, BucketEnd(p, i, j), count, soFar + count);
    assert IsBucket(p, b, n);
    CountedStep(data, bs, b);
    BucketEnds(p, i, j);
  }

  lemma {:induction false} CountedStep(data: seq<Byte>, bs: seq<Bucket>, b: Bucket)
    requires Counted(data, bs) && b.count == Count(data, |bs|) && b.soFar == SumTo(data, |bs|) + b.count
    ensures Counted(data, bs + [b]) && SumTo(data, |bs| + 1) == b.soFar
  {
  }

  /** Both loops.  The buckets visited tile the range from 0 to
      2^(granularity + max_range - 1) without gap or overlap, equally wide within a range
      and twice as wide in the next; with each come its own count and so_far, the entries up to it, whose percentage of total never falls
      and stays below 100. */
  method Print(p: Params, data: seq<Byte>) returns (bs: seq<Bucket>, total: nat)
    ensures Tiles(bs) && Precise(p, bs) && Placed(p, bs)
    ensures p.minRange < p.maxRange ==>
              |bs| == (p.maxRange - p.minRange) * Pow2(p.granularity) && Last(bs) == Pow2(p.granularity + p.maxRange - 1)
    ensures p.minRange >= p.maxRange ==> bs == []
    ensures Counted(data, bs) && total == 1 + SumTo(data, |bs|) && Accumulates(bs, total) && Rising(bs, total)
  {
    total := TotalCount(p, data);
    bs := [];
    var soFar: nat, bucket: nat := 0, 0;
    for i := 0 to Ranges(p)
      invariant AtRange(p, data, bs, bucket, soFar, i)
    {
      bs, soFar, bucket := PrintRange(p, data, bs, soFar, bucket, i);
    }
    AllPrinted(p, data, bs, bucket, soFar);
    CountedAccumulates(data, bs);
  }

  lemma {:induction false} AllPrinted(p: Params, data: seq<Byte>, bs: seq<Bucket>, bucket: nat, soFar: nat)
    requires AtRange(p, data, bs, bucket, soFar, Ranges(p))
    ensures Tiles(bs) && Precise(p, bs) && Placed(p, bs) && Counted(data, bs) && Rising(bs, 1 + SumTo(data, |bs|))
    ensures |bs| == Ranges(p) * PerRange(p) && Last(bs) == RangeStart(p, Ranges(p))
  {
    CountedRises(data, bs);
    BucketsTile(p, bs);
  }

  // The printing loop before bucket j of range i.
  ghost predicate AtBucket(p: Params, data: seq<Byte>, bs: seq<Bucket>, bucket: nat, soFar: nat, i: nat, j: nat) {
    Printed(p, data, bs, bucket, soFar, i * PerRange(p) + j) && bucket == RangeStart(p, i) + j * Width(p, i)
  }

  lemma {:induction false} NextBucket(p: Params, data: seq<Byte>, bs: seq<Bucket>, bucket: nat, soFar: nat, i: nat, j: nat)
    requires AtBucket(p, data, bs, bucket, soFar, i, j) && j < PerRange(p)
    ensures var end, count := BucketEnd(p, i, j), Count(data, i * PerRange(p) + j);
            AtBucket(p, data, bs + [Bucket(i, j, bucket, end, count, soFar + count)], end, soFar + count, i, j + 1)
  {
    PrintedStep(p, data, bs, bucket, soFar, i * PerRange(p) + j, i, j);
  }

  // The printing loop before range i.
  ghost predicate AtRange(p: Params, data: seq<Byte>, bs: seq<Bucket>, bucket: nat, soFar: nat, i: nat) {
    Printed(p, data, bs, bucket, soFar, i * PerRange(p)) && bucket == RangeStart(p, i)
  }

  lemma {:induction false} NextRange(p: Params, data: seq<Byte>, bs: seq<Bucket>, bucket: nat, soFar: nat, i: nat)
    requires AtBucket(p, data, bs, bucket, soFar, i, PerRange(p))
    ensures AtRange(p, data, bs, bucket, soFar, i + 1)
  {
    RangesMeet(p, i);
    MulSplit(i, 1, PerRange(p));
  }

  // The inner loop, for the buckets of range i.
  method PrintRange(p: Params, data: seq<Byte>, bs0: seq<Bucket>, soFar0: nat, bucket0: nat, i: nat)
    returns (bs: seq<Bucket>, soFar: nat, bucket: nat)
    requires AtRange(p, data, bs0, bucket0, soFar0, i)
    ensures AtRange(p, data, bs, bucket, soFar, i + 1)
  {
    bs, soFar, bucket := bs0, soFar0, bucket0;
    for j := 0 to PerRange(p)
      invariant AtBucket(p, data, bs, bucket, soFar, i, j)
    {
      NextBucket(p, data, bs, bucket, soFar, i, j);
      var count := Count(data, i * PerRange(p) + j);
      soFar := soFar + count;
      var lastBucket := bucket;
      bucket := BucketEnd(p, i, j);
      bs := bs + [Bucket(i, j, lastBucket, bucket, count, soFar)];
    }
    NextRange(p, data, bs, bucket, soFar, i);
  }
}

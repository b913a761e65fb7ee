/** The print queue of the O3 pipeline viewer (util/o3-pipeview.py).

    Retired instructions arrive out of order and are queued.  Once the queue is longer
    than `maxThreshold` it is sorted by sequence number and drained to `minThreshold`;
    at end of file it is drained completely.  Thresholds are parameters here; the
    program uses 2000 and 1000.
 */
module ReorderBuffer {

  // One instruction of the trace: its sequence number and the tick of each stage
  // (0 when the stage was never reached).
  datatype Inst = Inst(sn: int, fetch: int, decode: int, rename: int, dispatch: int,
                       issue: int, complete: int, retire: int, store: int)

  // The print filters; a bound that is not positive is switched off.
  datatype Bounds = Bounds(snStart: int, snStop: int, tickStart: int, tickStop: int, onlyCommitted: bool)

  predicate Shown(x: Inst, b: Bounds) {
    && !(b.snStart > 0 && x.sn < b.snStart)
    && !(b.snStop > 0 && x.sn > b.snStop)
    && !(b.tickStart > 0 && x.fetch < b.tickStart)
    && !(b.tickStop > 0 && x.fetch > b.tickStop)
    && !(b.onlyCommitted && x.retire == 0)
  }

  function Filter(s: seq<Inst>, b: Bounds): seq<Inst> {
    if s == [] then []
    else Filter(s[..|s| - 1], b) + (if Shown(s[|s| - 1], b) then [s[|s| - 1]] else [])
  }

  // What the bounds ask for.
  ghost predicate InBounds(x: Inst, b: Bounds) {
    && (b.snStart > 0 ==> b.snStart <= x.sn)
    && (b.snStop > 0 ==> x.sn <= b.snStop)
    && (b.tickStart > 0 ==> b.tickStart <= x.fetch)
    && (b.tickStop > 0 ==> x.fetch <= b.tickStop)
    && (b.onlyCommitted ==> x.retire != 0)
  }

  ghost predicate Off(b: Bounds) {
    b.snStart <= 0 && b.snStop <= 0 && b.tickStart <= 0 && b.tickStop <= 0 && !b.onlyCommitted
  }

  // out consists of the instructions of s within the bounds, which stand at the
  // increasing positions `at`.
  ghost predicate Selects(out: seq<Inst>, s: seq<Inst>, b: Bounds, at: seq<nat>) {
    && |at| == |out|
    && (forall k :: 0 <= k < |at| ==> at[k] < |s| && out[k] == s[at[k]])
    && (forall j, k :: 0 <= j < k < |at| ==> at[j] < at[k])
    && (forall i :: 0 <= i < |s| ==> (i in at <==> InBounds(s[i], b)))
  }

  ghost predicate PrintsWithin(out: seq<Inst>, s: seq<Inst>, b: Bounds) { exists at :: Selects(out, s, b, at) }

  lemma {:induction false} FilterSelects(s: seq<Inst>, b: Bounds) returns (at: seq<nat>)
    ensures Selects(Filter(s, b), s, b, at)
  {
    at := [];
    if s != [] {
      var n := |s| - 1;
      at := FilterSelects(s[..n], b);
      if InBounds(s[n], b) { at := at + [n]; }
    }
  }

  lemma {:induction false} FilterCounts(s: seq<Inst>, b: Bounds, x: Inst)
    ensures multiset(Filter(s, b))[x] == if InBounds(x, b) then multiset(s)[x] else 0
  {
    if s != [] {
      FilterCounts(s[..|s| - 1], b, x);
      assert s == s[..|s| - 1] + [s[|s| - 1]];
    }
  }

  lemma {:induction false} FilterOff(s: seq<Inst>, b: Bounds)
    requires Off(b)
    ensures Filter(s, b) == s
  {
    if s != [] {
      FilterOff(s[..|s| - 1], b);
      assert s == s[..|s| - 1] + [s[|s| - 1]];
    }
  }

  /** The filter keeps the instructions within the bounds and no others, each as often
      as it occurs and in the order of the list; with all bounds off it keeps them all. */
  lemma {:induction false} FilterExact(s: seq<Inst>, b: Bounds)
    ensures PrintsWithin(Filter(s, b), s, b)
    ensures forall x :: multiset(Filter(s, b))[x] == if InBounds(x, b) then multiset(s)[x] else 0
    ensures Off(b) ==> Filter(s, b) == s
  {
    var at := FilterSelects(s, b);
    forall x ensures multiset(Filter(s, b))[x] == if InBounds(x, b) then multiset(s)[x] else 0 {
      FilterCounts(s, b, x);
    }
    if Off(b) { FilterOff(s, b); }
  }

  // ---------------------------------------------------------------- stable sorting

  ghost predicate Sorted(s: seq<Inst>) {
    forall i, j :: 0 <= i < j < |s| ==> s[i].sn <= s[j].sn
  }

  // Where x goes among the first n elements: behind everything not above it.
  function Place(s: seq<Inst>, n: nat, x: Inst): (k: nat)
    requires n <= |s|
    ensures k <= n
  {
    if n == 0 || s[n - 1].sn <= x.sn then n else Place(s, n - 1, x)
  }

  function Insert(s: seq<Inst>, x: Inst): seq<Inst> {
    var k := Place(s, |s|, x);
    s[..k] + [x] + s[k..]
  }

  function SortTo(s: seq<Inst>, n: nat): seq<Inst>
    requires n <= |s|
  {
    if n == 0 then [] else Insert(SortTo(s, n - 1), s[n - 1])
  }

  // Python's list.sort on sequence numbers: equal keys keep their order.
  function StableSort(s: seq<Inst>): seq<Inst> { SortTo(s, |s|) }

  // The instructions among the first n of s that carry sequence number v, in order.
  function SnTo(s: seq<Inst>, n: nat, v: int): seq<Inst>
    requires n <= |s|
  {
    if n == 0 then [] else SnTo(s, n - 1, v) + (if s[n - 1].sn == v then [s[n - 1]] else [])
  }

  function WithSn(s: seq<Inst>, v: int): seq<Inst> { SnTo(s, |s|, v) }

  // How many of the first n instructions of s have a sequence number below v.
  function CountTo(s: seq<Inst>, n: nat, v: int): nat
    requires n <= |s|
  {
    if n == 0 then 0 else CountTo(s, n - 1, v) + (if s[n - 1].sn < v then 1 else 0)
  }

  function CountBelow(s: seq<Inst>, v: int): nat { CountTo(s, |s|, v) }

  lemma {:induction false} CountToLeft(a: seq<Inst>, b: seq<Inst>, n: nat, v: int)
    requires n <= |a|
    ensures CountTo(a + b, n, v) == CountTo(a, n, v)
  {
    if n > 0 { CountToLeft(a, b, n - 1, v); }
  }

  lemma {:induction false} CountToRight(a: seq<Inst>, b: seq<Inst>, m: nat, v: int)
    requires m <= |b|
    ensures CountTo(a + b, |a| + m, v) == CountBelow(a, v) + CountTo(b, m, v)
  {
    if m == 0 {
      CountToLeft(a, b, |a|, v);
    } else {
      CountToRight(a, b, m - 1, v);
      assert (a + b)[|a| + m - 1] == b[m - 1];
    }
  }

  lemma {:induction false} CountConcat(a: seq<Inst>, b: seq<Inst>, v: int)
    ensures CountBelow(a + b, v) == CountBelow(a, v) + CountBelow(b, v)
  {
    CountToRight(a, b, |b|, v);
  }

  lemma {:induction false} CountSnoc(s: seq<Inst>, x: Inst, v: int)
    ensures CountBelow(s + [x], v) == CountBelow(s, v) + if x.sn < v then 1 else 0
  {
    CountConcat(s, [x], v);
    assert CountTo([x], 1, v) == CountTo([x], 0, v) + if x.sn < v then 1 else 0;
  }

  lemma {:induction false} CountToBounds(s: seq<Inst>, n: nat, v: int)
    requires n <= |s|
    ensures CountTo(s, n, v) <= n
    ensures (forall i :: 0 <= i < n ==> s[i].sn < v) ==> CountTo(s, n, v) == n
    ensures (forall i :: 0 <= i < n ==> s[i].sn >= v) ==> CountTo(s, n, v) == 0
  {
    if n > 0 { CountToBounds(s, n - 1, v); }
  }

  lemma {:induction false} CountBounds(s: seq<Inst>, v: int)
    ensures CountBelow(s, v) <= |s|
    ensures (forall i :: 0 <= i < |s| ==> s[i].sn < v) ==> CountBelow(s, v) == |s|
    ensures (forall i :: 0 <= i < |s| ==> s[i].sn >= v) ==> CountBelow(s, v) == 0
  {
    CountToBounds(s, |s|, v);
  }

  lemma {:induction false} InsertPermutes(s: seq<Inst>, x: Inst)
    ensures multiset(Insert(s, x)) == multiset(s) + multiset{x}
    ensures |Insert(s, x)| == |s| + 1
  {
    var k := Place(s, |s|, x);
    assert s == s[..k] + s[k..];
  }

  lemma {:induction false} PlaceSplits(s: seq<Inst>, n: nat, x: Inst)
    requires Sorted(s) && n <= |s|
    ensures forall i :: 0 <= i < Place(s, n, x) ==> s[i].sn <= x.sn
    ensures forall i :: Place(s, n, x) <= i < n ==> s[i].sn > x.sn
  {
    if n > 0 && s[n - 1].sn > x.sn { PlaceSplits(s, n - 1, x); }
  }

  lemma {:induction false} InsertSorts(s: seq<Inst>, x: Inst)
    requires Sorted(s)
    ensures Sorted(Insert(s, x))
  {
    PlaceSplits(s, |s|, x);
  }

  lemma {:induction false} InsertCounts(s: seq<Inst>, x: Inst, v: int)
    ensures CountBelow(Insert(s, x), v) == CountBelow(s, v) + if x.sn < v then 1 else 0
  {
    var k := Place(s, |s|, x);
    assert s == s[..k] + s[k..];
    CountConcat(s[..k], s[k..], v);
    CountConcat(s[..k] + [x], s[k..], v);
    CountSnoc(s[..k], x, v);
  }

  lemma {:induction false} SnToLeft(a: seq<Inst>, b: seq<Inst>, n: nat, v: int)
    requires n <= |a|
    ensures SnTo(a + b, n, v) == SnTo(a, n, v)
  {
    if n > 0 { SnToLeft(a, b, n - 1, v); }
  }

  lemma {:induction false} SnToRight(a: seq<Inst>, b: seq<Inst>, m: nat, v: int)
    requires m <= |b|
    ensures SnTo(a + b, |a| + m, v) == WithSn(a, v) + SnTo(b, m, v)
  {
    if m == 0 {
      SnToLeft(a, b, |a|, v);
    } else {
      SnToRight(a, b, m - 1, v);
      assert (a + b)[|a| + m - 1] == b[m - 1];
    }
  }

  lemma {:induction false} SnToNone(s: seq<Inst>, n: nat, v: int)
    requires n <= |s| && forall i :: 0 <= i < n ==> s[i].sn > v
    ensures SnTo(s, n, v) == []
  {
    if n > 0 { SnToNone(s, n - 1, v); }
  }

  lemma {:induction false} SnSplit(a: seq<Inst>, x: Inst, b: seq<Inst>, v: int)
    requires forall i :: 0 <= i < |b| ==> b[i].sn > x.sn
    ensures WithSn(a + [x] + b, v) == WithSn(a + b, v) + if x.sn == v then [x] else []
  {
    SnToRight(a, b, |b|, v);
    SnToRight(a + [x], b, |b|, v);
    SnToRight(a, [x], 1, v);
    assert SnTo([x], 1, v) == SnTo([x], 0, v) + if x.sn == v then [x] else [];
    if x.sn == v { SnToNone(b, |b|, v); }
  }

  lemma {:induction false} InsertIsStable(s: seq<Inst>, x: Inst, v: int)
    requires Sorted(s)
    ensures WithSn(Insert(s, x), v) == WithSn(s, v) + if x.sn == v then [x] else []
  {
    var k := Place(s, |s|, x);
    PlaceSplits(s, |s|, x);
    SnSplit(s[..k], x, s[k..], v);
    assert s == s[..k] + s[k..];
  }

  lemma {:induction false} SortToSorted(s: seq<Inst>, n: nat)
    requires n <= |s|
    ensures Sorted(SortTo(s, n))
  {
    if n > 0 {
      SortToSorted(s, n - 1);
      InsertSorts(SortTo(s, n - 1), s[n - 1]);
    }
  }

  lemma {:induction false} TakeOne(s: seq<Inst>, n: nat)
    requires 0 < n <= |s|
    ensures multiset(s[..n]) == multiset(s[..n - 1]) + multiset{s[n - 1]}
  {
    assert s[..n] == s[..n - 1] + [s[n - 1]];
  }

  lemma {:induction false} SortToPermutes(s: seq<Inst>, n: nat)
    requires n <= |s|
    ensures multiset(SortTo(s, n)) == multiset(s[..n])
  {
    if n > 0 {
      SortToPermutes(s, n - 1);
      InsertPermutes(SortTo(s, n - 1), s[n - 1]);
      TakeOne(s, n);
    }
  }

  lemma {:induction false} SortSorts(s: seq<Inst>)
    ensures Sorted(StableSort(s)) && multiset(StableSort(s)) == multiset(s) && |StableSort(s)| == |s|
  {
    SortToSorted(s, |s|);
    SortToPermutes(s, |s|);
    assert s[..|s|] == s;
    assert |StableSort(s)| == |multiset(StableSort(s))|;
  }

  lemma {:induction false} SortToCounts(s: seq<Inst>, n: nat, v: int)
    requires n <= |s|
    ensures CountBelow(SortTo(s, n), v) == CountTo(s, n, v)
  {
    if n > 0 {
      SortToCounts(s, n - 1, v);
      InsertCounts(SortTo(s, n - 1), s[n - 1], v);
    }
  }

  lemma {:induction false} SortToIsStable(s: seq<Inst>, n: nat, v: int)
    requires n <= |s|
    ensures WithSn(SortTo(s, n), v) == SnTo(s, n, v)
  {
    if n > 0 {
      SortToIsStable(s, n - 1, v);
      SortToSorted(s, n - 1);
      InsertIsStable(SortTo(s, n - 1), s[n - 1], v);
    }
  }

  /** The sort used by the viewer is characterised without its body: the result is
      ordered, a permutation, and keeps the arrival order of equal sequence numbers. */
  lemma {:induction false} StableSortCorrect(s: seq<Inst>)
    ensures Sorted(StableSort(s))
    ensures multiset(StableSort(s)) == multiset(s)
    ensures |StableSort(s)| == |s|
    ensures forall v :: CountBelow(StableSort(s), v) == CountBelow(s, v)
    ensures forall v :: WithSn(StableSort(s), v) == WithSn(s, v)
  {
    SortSorts(s);
    forall v ensures CountBelow(StableSort(s), v) == CountBelow(s, v) && WithSn(StableSort(s), v) == WithSn(s, v) {
      SortToCounts(s, |s|, v);
      SortToIsStable(s, |s|, v);
    }
  }

  // Sorting one more instruction inserts it.
  lemma {:induction false} SortSnoc(s: seq<Inst>, x: Inst)
    ensures StableSort(s + [x]) == Insert(StableSort(s), x)
  {
    SortToPrefix(s, s + [x], |s|);
  }

  lemma {:induction false} SortToPrefix(s: seq<Inst>, t: seq<Inst>, n: nat)
    requires n <= |s| && n <= |t| && forall i :: 0 <= i < n ==> s[i] == t[i]
    ensures SortTo(t, n) == SortTo(s, n)
  {
    if n > 0 { SortToPrefix(s, t, n - 1); }
  }

  lemma {:induction false} SortToOfSorted(s: seq<Inst>, n: nat)
    requires Sorted(s) && n <= |s|
    ensures SortTo(s, n) == s[..n]
  {
    if n > 0 {
      SortToOfSorted(s, n - 1);
      var t := s[..n - 1];
      assert Place(t, n - 1, s[n - 1]) == n - 1;
      assert s[..n] == t + [s[n - 1]];
    }
  }

  lemma {:induction false} SortOfSorted(s: seq<Inst>)
    requires Sorted(s)
    ensures StableSort(s) == s
  {
    SortToOfSorted(s, |s|);
    assert s[..|s|] == s;
  }

  // An insertion at or above everything in p leaves p alone.
  lemma {:induction false} InsertBehind(p: seq<Inst>, q: seq<Inst>, x: Inst)
    requires forall i :: 0 <= i < |p| ==> p[i].sn <= x.sn
    ensures Insert(p + q, x) == p + Insert(q, x)
  {
    PlaceBehind(p, q, |q|, x);
    var k := Place(q, |q|, x);
    assert (p + q)[..|p| + k] == p + q[..k] && (p + q)[|p| + k..] == q[k..];
  }

  lemma {:induction false} PlaceBehind(p: seq<Inst>, q: seq<Inst>, m: nat, x: Inst)
    requires m <= |q| && forall i :: 0 <= i < |p| ==> p[i].sn <= x.sn
    ensures Place(p + q, |p| + m, x) == |p| + Place(q, m, x)
  {
    if m > 0 {
      assert (p + q)[|p| + m - 1] == q[m - 1];
      PlaceBehind(p, q, m - 1, x);
    }
  }

  // In a sorted list the elements below v are exactly a prefix.
  lemma {:induction false} SortedPrefixBelow(s: seq<Inst>, v: int, k: nat, n: nat)
    requires Sorted(s) && k < n <= |s|
    ensures s[k].sn < v <==> k < CountTo(s, n, v)
  {
    CountToBounds(s, n - 1, v);
    if k < n - 1 {
      SortedPrefixBelow(s, v, k, n - 1);
      assert s[k].sn <= s[n - 1].sn;
    } else if s[n - 1].sn < v {
      assert forall i :: 0 <= i < n - 1 ==> s[i].sn <= s[n - 1].sn;
    }
  }

  // ---------------------------------------------------------------- the buffer as a function

  datatype Buffer = Buffer(popped: seq<Inst>, queue: seq<Inst>)

  function Drain(b: Buffer, lower: nat): Buffer {
    var q := StableSort(b.queue);
    var k := if |q| > lower then |q| - lower else 0;
    Buffer(b.popped + q[..k], q[k..])
  }

  function Arrive(b: Buffer, x: Inst, max: nat, min: nat): Buffer {
    var c := Buffer(b.popped, b.queue + [x]);
    if |c.queue| > max then Drain(c, min) else c
  }

  function Run(trace: seq<Inst>, max: nat, min: nat): Buffer {
    if trace == [] then Buffer([], [])
    else Arrive(Run(trace[..|trace| - 1], max, min), trace[|trace| - 1], max, min)
  }

  // Everything taken off the queue, in order, once the end-of-file drain is done.
  function Emitted(trace: seq<Inst>, max: nat, min: nat): seq<Inst> {
    Drain(Run(trace, max, min), 0).popped
  }

  // The arrival counts after which the queue is drained: first max + 1, and then
  // each time the max + 1 - min that were printed have been replaced.
  predicate DrainPoint(t: int, max: nat, min: nat)
    requires min <= max
  {
    t == max + 1 || (t > max + 1 && DrainPoint(t - (max + 1 - min), max, min))
  }

  // No instruction arrives after a drain that had to print something larger: at each
  // earlier drain point t, at least t - min of the arrivals were at or below it.
  ghost predicate InTime(trace: seq<Inst>, max: nat, min: nat)
    requires min <= max
  {
    forall t, i :: 0 <= t <= i < |trace| && DrainPoint(t, max, min) ==> InTimeAt(trace, t, i, min)
  }

  ghost predicate InTimeAt(trace: seq<Inst>, t: nat, i: nat, min: nat)
    requires t <= i < |trace|
  {
    CountBelow(trace[..t], trace[i].sn + 1) >= t - min
  }

  // Position of trace[i] in sequence order, arrival order breaking ties.
  ghost function Rank(trace: seq<Inst>, i: nat): nat
    requires i < |trace|
  {
    CountBelow(trace[..i], trace[i].sn + 1) + CountBelow(trace[i..], trace[i].sn)
  }

  // "Not out of order for more than min places".
  ghost predicate LateAtMost(trace: seq<Inst>, min: nat) {
    forall i :: 0 <= i < |trace| ==> i <= Rank(trace, i) + min
  }

  // ---------------------------------------------------------------- what every run keeps

  ghost predicate Conserves(b: Buffer, trace: seq<Inst>) {
    && multiset(b.popped) + multiset(b.queue) == multiset(trace)
    && |b.popped| + |b.queue| == |trace|
    && forall v :: CountBelow(b.popped, v) + CountBelow(b.queue, v) == CountBelow(trace, v)
  }

  lemma {:induction false} DrainCounts(b: Buffer, lower: nat, v: int)
    ensures var d := Drain(b, lower);
            CountBelow(d.popped, v) + CountBelow(d.queue, v) == CountBelow(b.popped, v) + CountBelow(b.queue, v)
  {
    var q := StableSort(b.queue);
    SortToCounts(b.queue, |b.queue|, v);
    var k := if |q| > lower then |q| - lower else 0;
    assert q == q[..k] + q[k..];
    CountConcat(b.popped, q[..k], v);
    CountConcat(q[..k], q[k..], v);
  }

  lemma {:induction false} DrainMoves(b: Buffer, lower: nat)
    ensures var d := Drain(b, lower);
            && multiset(d.popped) + multiset(d.queue) == multiset(b.popped) + multiset(b.queue)
            && |d.popped| + |d.queue| == |b.popped| + |b.queue|
            && |d.queue| == (if |b.queue| > lower then lower else |b.queue|)
            && Sorted(d.queue)
  {
    var q := StableSort(b.queue);
    SortSorts(b.queue);
    var k := if |q| > lower then |q| - lower else 0;
    assert q == q[..k] + q[k..];
  }

  lemma {:induction false} DrainConserves(b: Buffer, lower: nat, trace: seq<Inst>)
    requires Conserves(b, trace)
    ensures Conserves(Drain(b, lower), trace)
    ensures |Drain(b, lower).queue| == if |b.queue| > lower then lower else |b.queue|
    ensures Sorted(Drain(b, lower).queue)
  {
    DrainMoves(b, lower);
    var d := Drain(b, lower);
    forall v ensures CountBelow(d.popped, v) + CountBelow(d.queue, v) == CountBelow(trace, v) {
      DrainCounts(b, lower, v);
    }
  }

  /** In every run no arrival is lost or printed twice, and between calls the queue
      never holds more than `max` instructions. */
  lemma {:induction false} RunConserves(trace: seq<Inst>, max: nat, min: nat)
    requires min <= max
    ensures Conserves(Run(trace, max, min), trace)
    ensures |Run(trace, max, min).queue| <= max
  {
    if trace != [] {
      var s, x := trace[..|trace| - 1], trace[|trace| - 1];
      RunConserves(s, max, min);
      var b := Run(s, max, min);
      var c := Buffer(b.popped, b.queue + [x]);
      assert trace == s + [x];
      forall v ensures CountBelow(c.popped, v) + CountBelow(c.queue, v) == CountBelow(trace, v) {
        CountSnoc(b.queue, x, v);
        CountSnoc(s, x, v);
      }
      assert Conserves(c, trace);
      if |c.queue| > max {
        DrainConserves(c, min, trace);
      }
    }
  }

  // The most recent drain point among the first n arrivals, 0 if there is none.
  ghost function LastDrain(n: nat, max: nat, min: nat): (t: nat)
    requires min <= max
    ensures t <= n
    ensures t == 0 || DrainPoint(t, max, min)
    ensures DrainPoint(n, max, min) ==> t == n
  {
    if n == 0 then 0 else if DrainPoint(n, max, min) then n else LastDrain(n - 1, max, min)
  }

  lemma {:induction false} LastDrainSpacing(n: nat, max: nat, min: nat)
    requires min <= max
    ensures var t := LastDrain(n, max, min);
            if t == 0 then n <= max else n < t + (max + 1 - min)
  {
    if n > 0 && !DrainPoint(n, max, min) {
      LastDrainSpacing(n - 1, max, min);
      var t := LastDrain(n - 1, max, min);
      if t > 0 {
        assert DrainPoint(t + (max + 1 - min), max, min);
      }
    }
  }

  lemma {:induction false} NextDrain(n: nat, max: nat, min: nat)
    requires min <= max
    ensures var t := LastDrain(n, max, min);
            DrainPoint(n + 1, max, min) <==> (n + 1 == if t == 0 then max + 1 else t + (max + 1 - min))
  {
    LastDrainSpacing(n, max, min);
    var t := LastDrain(n, max, min);
    if t == 0 {
    } else {
      if n + 1 < t + (max + 1 - min) { NoDrainBetween(t, n + 1, max, min); }
    }
  }

  // The buffer drains exactly at the drain points, each time down to `min`.
  lemma {:induction false} RunSchedule(trace: seq<Inst>, max: nat, min: nat)
    requires min <= max
    ensures var t := LastDrain(|trace|, max, min);
            |Run(trace, max, min).popped| == if t == 0 then 0 else t - min
  {
    if trace != [] {
      var s := trace[..|trace| - 1];
      RunSchedule(s, max, min);
      RunConserves(s, max, min);
      ScheduleStep(|s|, |Run(s, max, min).queue|, max, min);
      ArriveLength(Run(s, max, min), trace[|trace| - 1], max, min);
    }
  }

  lemma {:induction false} ArriveLength(b: Buffer, x: Inst, max: nat, min: nat)
    requires min <= max
    ensures |Arrive(b, x, max, min).popped| == |b.popped| + if |b.queue| + 1 > max then |b.queue| + 1 - min else 0
  {
    SortSorts(b.queue + [x]);
  }

  lemma {:induction false} ScheduleStep(n: nat, queued: nat, max: nat, min: nat)
    requires min <= max
    requires var t := LastDrain(n, max, min); queued == n - if t == 0 then 0 else t - min
    ensures queued + 1 > max <==> DrainPoint(n + 1, max, min)
  {
    NextDrain(n, max, min);
    LastDrainSpacing(n, max, min);
  }

  lemma {:induction false} NoDrainBetween(last: nat, n: nat, max: nat, min: nat)
    requires min <= max && DrainPoint(last, max, min) && last < n < last + (max + 1 - min)
    ensures !DrainPoint(n, max, min)
  {
    var d := max + 1 - min;
    if last != max + 1 { NoDrainBetween(last - d, n - d, max, min); }
  }

  // What was emitted stays emitted, and everything else follows it.
  lemma {:induction false} RunPrefix(trace: seq<Inst>, t: nat, max: nat, min: nat)
    requires min <= max && t <= |trace|
    ensures Run(trace[..t], max, min).popped <= Run(trace, max, min).popped
    decreases |trace|
  {
    if t == |trace| {
      assert trace[..t] == trace;
    } else {
      var s := trace[..|trace| - 1];
      RunPrefix(s, t, max, min);
      assert s[..t] == trace[..t];
    }
  }

  // ---------------------------------------------------------------- the ordering theorem

  // While arrivals are in time, emitted plus sorted queue is the sort of all arrivals.
  ghost predicate Ordered(b: Buffer, trace: seq<Inst>) {
    b.popped + StableSort(b.queue) == StableSort(trace)
  }

  lemma {:induction false} DrainKeepsOrdered(b: Buffer, lower: nat, trace: seq<Inst>)
    requires Ordered(b, trace)
    ensures Ordered(Drain(b, lower), trace)
  {
    var q := StableSort(b.queue);
    SortSorts(b.queue);
    var k := if |q| > lower then |q| - lower else 0;
    SortOfSorted(q[k..]);
    assert b.popped + q == b.popped + q[..k] + q[k..];
  }

  lemma {:induction false} ArriveKeepsOrdered(b: Buffer, s: seq<Inst>, x: Inst, max: nat, min: nat)
    requires Ordered(b, s)
    requires forall k :: 0 <= k < |b.popped| ==> b.popped[k].sn <= x.sn
    ensures Ordered(Arrive(b, x, max, min), s + [x])
  {
    var c := Buffer(b.popped, b.queue + [x]);
    assert Ordered(c, s + [x]) by {
      InsertBehind(b.popped, StableSort(b.queue), x);
      SortSnoc(b.queue, x);
      SortSnoc(s, x);
    }
    if |c.queue| > max { DrainKeepsOrdered(c, min, s + [x]); }
  }

  lemma {:induction false} PoppedAtMostNext(s: seq<Inst>, x: Inst, max: nat, min: nat)
    requires min <= max && InTime(s + [x], max, min)
    requires Ordered(Run(s, max, min), s)
    ensures forall y :: y in Run(s, max, min).popped ==> y.sn <= x.sn
  {
    var p := Run(s, max, min).popped;
    RunSchedule(s, max, min);
    var t := LastDrain(|s|, max, min);
    if t > 0 {
      assert CountBelow(s[..t], x.sn + 1) >= t - min by {
        assert InTimeAt(s + [x], t, |s|, min);
        assert (s + [x])[..t] == s[..t];
      }
      CountPrefix(s, t, x.sn + 1);
      SortSorts(s);
      SortToCounts(s, |s|, x.sn + 1);
      SortedBeginning(StableSort(s), p, x.sn + 1);
    }
  }

  lemma {:induction false} SortedBeginning(s: seq<Inst>, p: seq<Inst>, v: int)
    requires Sorted(s) && p <= s && |p| <= CountBelow(s, v)
    ensures forall y :: y in p ==> y.sn < v
  {
    forall k | 0 <= k < |p| ensures p[k].sn < v {
      SortedPrefixBelow(s, v, k, |s|);
    }
  }

  lemma {:induction false} InTimePrefix(s: seq<Inst>, x: Inst, max: nat, min: nat)
    requires min <= max && InTime(s + [x], max, min)
    ensures InTime(s, max, min)
  {
    var trace := s + [x];
    forall t, i | 0 <= t <= i < |s| && DrainPoint(t, max, min)
      ensures InTimeAt(s, t, i, min)
    {
      assert InTimeAt(trace, t, i, min);
      assert s[..t] == trace[..t] && s[i] == trace[i];
    }
  }

  lemma {:induction false} InTimeInvariant(trace: seq<Inst>, max: nat, min: nat)
    requires min <= max && InTime(trace, max, min)
    ensures Ordered(Run(trace, max, min), trace)
  {
    if trace != [] {
      var s, x := trace[..|trace| - 1], trace[|trace| - 1];
      assert trace == s + [x];
      InTimePrefix(s, x, max, min);
      InTimeInvariant(s, max, min);
      PoppedAtMostNext(s, x, max, min);
      ArriveKeepsOrdered(Run(s, max, min), s, x, max, min);
    }
  }

  lemma {:induction false} EmittedConserves(trace: seq<Inst>, max: nat, min: nat)
    requires min <= max
    ensures multiset(Emitted(trace, max, min)) == multiset(trace)
    ensures |Emitted(trace, max, min)| == |trace|
    ensures forall v :: CountBelow(Emitted(trace, max, min), v) == CountBelow(trace, v)
  {
    RunConserves(trace, max, min);
    DrainConserves(Run(trace, max, min), 0, trace);
  }

  // A sorted list that starts with more than c elements holds at most c elements
  // below v, if its first c + 1 elements hold at most c.
  lemma {:induction false} SortedCountFromPrefix(e: seq<Inst>, p: seq<Inst>, v: int)
    requires Sorted(e) && p <= e && CountBelow(p, v) < |p|
    ensures CountBelow(e, v) == CountBelow(p, v)
  {
    var c := CountBelow(p, v);
    assert Sorted(p);
    SortedPrefixBelow(p, v, c, |p|);
    assert p[c].sn >= v;
    assert e == p + e[|p|..];
    CountConcat(p, e[|p|..], v);
    forall i | 0 <= i < |e[|p|..]| ensures e[|p|..][i].sn >= v {
      assert e[c] == p[c] && e[|p|..][i] == e[|p| + i];
    }
    CountBounds(e[|p|..], v);
  }

  lemma {:induction false} CountMember(s: seq<Inst>, t: nat, i: nat)
    requires t <= i < |s|
    ensures CountBelow(s, s[i].sn + 1) > CountBelow(s[..t], s[i].sn + 1)
  {
    var v := s[i].sn + 1;
    assert s[..i + 1] == s[..i] + [s[i]];
    CountSnoc(s[..i], s[i], v);
    CountPrefix(s, i + 1, v);
    CountPrefix(s[..i], t, v);
    assert s[..i][..t] == s[..t];
  }

  lemma {:induction false} CountPrefix(s: seq<Inst>, t: nat, v: int)
    requires t <= |s|
    ensures CountBelow(s[..t], v) <= CountBelow(s, v)
  {
    assert s == s[..t] + s[t..];
    CountConcat(s[..t], s[t..], v);
  }

  lemma {:induction false} EmittedOutOfOrder(trace: seq<Inst>, max: nat, min: nat, t: nat, i: nat)
    requires min <= max && t <= i < |trace| && DrainPoint(t, max, min)
    requires !InTimeAt(trace, t, i, min)
    ensures !Sorted(Emitted(trace, max, min))
  {
    var v, u := trace[i].sn + 1, trace[..t];
    var p, e := Run(u, max, min).popped, Emitted(trace, max, min);
    RunSchedule(u, max, min);
    RunConserves(u, max, min);
    RunPrefix(trace, t, max, min);
    EmittedConserves(trace, max, min);
    assert CountBelow(p, v) <= CountBelow(u, v) < |p|;
    if Sorted(e) {
      SortedCountFromPrefix(e, p, v);
      CountMember(trace, t, i);
    }
  }

  /** The stream comes out in sequence order exactly when every instruction is in time
      at each drain point, and then it is the stable sort of the whole trace. */
  lemma {:induction false} OrderedExactlyWhenInTime(trace: seq<Inst>, max: nat, min: nat)
    requires min <= max
    ensures Sorted(Emitted(trace, max, min)) <==> InTime(trace, max, min)
    ensures InTime(trace, max, min) ==> Emitted(trace, max, min) == StableSort(trace)
  {
    if InTime(trace, max, min) {
      InTimeInvariant(trace, max, min);
      var q := StableSort(Run(trace, max, min).queue);
      assert q[..|q|] == q;
      StableSortCorrect(trace);
    } else {
      var t, i :| 0 <= t <= i < |trace| && DrainPoint(t, max, min) && !InTimeAt(trace, t, i, min);
      EmittedOutOfOrder(trace, max, min, t, i);
    }
  }

  // The arrival of trace[t..] that comes first in sequence order.
  lemma {:induction false} EarliestFrom(trace: seq<Inst>, t: nat) returns (m: nat)
    requires t < |trace|
    ensures t <= m < |trace|
    ensures forall j :: t <= j < |trace| ==> trace[m].sn <= trace[j].sn
    ensures forall j :: t <= j < m ==> trace[m].sn < trace[j].sn
    decreases |trace| - t
  {
    if t + 1 == |trace| {
      m := t;
    } else {
      var n := EarliestFrom(trace, t + 1);
      m := if trace[t].sn <= trace[n].sn then t else n;
    }
  }

  lemma {:induction false} LateBoundMeansInTime(trace: seq<Inst>, max: nat, min: nat)
    requires min <= max && LateAtMost(trace, min)
    ensures InTime(trace, max, min)
  {
    forall t, i | 0 <= t <= i < |trace| && DrainPoint(t, max, min)
      ensures InTimeAt(trace, t, i, min)
    {
      var m := EarliestFrom(trace, t);
      var v := trace[m].sn;
      assert m <= Rank(trace, m) + min;
      assert trace[..m] == trace[..t] + trace[t..m];
      CountConcat(trace[..t], trace[t..m], v + 1);
      CountBounds(trace[t..m], v + 1);
      CountBounds(trace[m..], v);
      CountMonotone(trace[..t], t, v + 1, trace[i].sn + 1);
    }
  }

  lemma {:induction false} CountMonotone(s: seq<Inst>, n: nat, v: int, w: int)
    requires n <= |s| && v <= w
    ensures CountTo(s, n, v) <= CountTo(s, n, w)
  {
    if n > 0 { CountMonotone(s, n - 1, v, w); }
  }

  /** The documented promise: if no instruction is out of order for more than `min`
      places, what is printed is the whole trace in sequence order, filtered. */
  lemma {:induction false} LateBoundPrintsSorted(trace: seq<Inst>, max: nat, min: nat, bounds: Bounds)
    requires min <= max && LateAtMost(trace, min)
    ensures PrintsWithin(Filter(Emitted(trace, max, min), bounds), StableSort(trace), bounds)
    ensures Sorted(Emitted(trace, max, min))
  {
    FilterExact(Emitted(trace, max, min), bounds);
    LateBoundMeansInTime(trace, max, min);
    OrderedExactlyWhenInTime(trace, max, min);
  }

  // What the viewer prints of a trace: the instructions within the bounds, each as often
  // as the trace has it, in the order of the emitted stream, which is sequence order if
  // no instruction is late; with all bounds off, the whole stream.
  ghost predicate PrintsTrace(out: seq<Inst>, trace: seq<Inst>, max: nat, min: nat, b: Bounds)
    requires min <= max
  {
    && PrintsWithin(out, Emitted(trace, max, min), b)
    && (forall x :: multiset(out)[x] == if InBounds(x, b) then multiset(trace)[x] else 0)
    && (Off(b) ==> out == Emitted(trace, max, min))
    && (LateAtMost(trace, min) ==> PrintsWithin(out, StableSort(trace), b))
  }

  lemma {:induction false} FilteredPrintsTrace(trace: seq<Inst>, max: nat, min: nat, b: Bounds)
    requires min <= max
    ensures PrintsTrace(Filter(Emitted(trace, max, min), b), trace, max, min, b)
  {
    EmittedConserves(trace, max, min);
    FilterExact(Emitted(trace, max, min), b);
    if LateAtMost(trace, min) { LateBoundPrintsSorted(trace, max, min, b); }
  }

  // A trace that never overflows the queue is printed in order however late it is.
  lemma {:induction false} ShortTraceInTime(trace: seq<Inst>, max: nat, min: nat)
    requires min <= max && |trace| <= max
    ensures Sorted(Emitted(trace, max, min))
  {
    OrderedExactlyWhenInTime(trace, max, min);
  }

  // n instructions, the last one first
  function Backwards(n: nat): seq<Inst> {
    seq(n, i requires 0 <= i < n => Inst(n - i, 0, 0, 0, 0, 0, 0, 0, 0))
  }

  /** "Otherwise they will appear out of order" is too strong: a reversed trace that fits
      into the queue is late by all its length, and is printed in order. */
  lemma {:induction false} LateYetOrdered(max: nat, min: nat, n: nat)
    requires min + 1 < n <= max
    ensures !LateAtMost(Backwards(n), min)
    ensures Sorted(Emitted(Backwards(n), max, min))
  {
    var trace := Backwards(n);
    ShortTraceInTime(trace, max, min);
    CountBounds(trace[..n - 1], 2);
    CountBounds(trace[n - 1..], 1);
    assert Rank(trace, n - 1) == 0;
  }

  // ---------------------------------------------------------------- the program

  class Viewer {
    const maxThreshold: nat
    const minThreshold: nat
    const bounds: Bounds
    var queue: seq<Inst>
    var printed: seq<Inst>
    ghost var popped: seq<Inst>

    ghost predicate Valid()
      reads this
    {
      minThreshold <= maxThreshold && printed == Filter(popped, bounds)
    }

    constructor (max: nat, min: nat, b: Bounds)
      requires min <= max
      ensures Valid() && maxThreshold == max && minThreshold == min && bounds == b
      ensures queue == [] && printed == [] && popped == []
    {
      maxThreshold, minThreshold, bounds := max, min, b;
      queue, printed, popped := [], [], [];
    }

    // print_insts
    method PrintInsts(lower: nat)
      requires Valid()
      modifies this
      ensures Valid()
      ensures Buffer(popped, queue) == Drain(old(Buffer(popped, queue)), lower)
    {
      queue := StableSort(queue);
      ghost var q := queue;
      ghost var k := 0;
      while |queue| > lower
        invariant Valid()
        invariant 0 <= k <= |q| && queue == q[k..]
        invariant k > 0 ==> |queue| >= lower
        invariant popped == old(popped) + q[..k]
        decreases |queue|
      {
        var item := queue[0];
        queue := queue[1..];
        popped := popped + [item];
        assert q[..k + 1] == q[..k] + [item];
        k := k + 1;
        if bounds.snStart > 0 && item.sn < bounds.snStart { continue; }
        if bounds.snStop > 0 && item.sn > bounds.snStop { continue; }
        if bounds.tickStart > 0 && item.fetch < bounds.tickStart { continue; }
        if bounds.tickStop > 0 && item.fetch > bounds.tickStop { continue; }
        if bounds.onlyCommitted && item.retire == 0 { continue; }
        printed := printed + [item];
      }
    }

    // queue_inst
    method QueueInst(x: Inst)
      requires Valid()
      modifies this
      ensures Valid()
      ensures Buffer(popped, queue) == Arrive(old(Buffer(popped, queue)), x, maxThreshold, minThreshold)
    {
      queue := queue + [x];
      if |queue| > maxThreshold {
        PrintInsts(minThreshold);
      }
    }

    // The main loop of process_trace from the first retired instruction to end of file.
    method ProcessTrace(trace: seq<Inst>)
      requires Valid() && queue == [] && printed == [] && popped == []
      modifies this
      ensures PrintsTrace(printed, trace, maxThreshold, minThreshold, bounds)
      ensures queue == []
    {
      for i := 0 to |trace|
        invariant Valid()
        invariant Buffer(popped, queue) == Run(trace[..i], maxThreshold, minThreshold)
        invariant |queue| <= maxThreshold
      {
        RunConserves(trace[..i + 1], maxThreshold, minThreshold);
        assert trace[..i + 1][..i] == trace[..i];
        QueueInst(trace[i]);
      }
      assert trace[..|trace|] == trace;
      ghost var before := Buffer(popped, queue);
      StableSortCorrect(queue);
      PrintInsts(0);
      FilteredPrintsTrace(trace, maxThreshold, minThreshold, bounds);
    }
  }
}

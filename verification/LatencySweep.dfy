/** The sizes visited by the memory latency sweep (configs/dram/lat_mem_rd.py). */
module LatencySweep {
  import opened Bits

  // is_pow2
  predicate IsPow2(n: nat) { n != 0 && BitAnd(n, n - 1) == 0 }

  lemma {:induction false} AndSelf(n: nat)
    ensures BitAnd(n, n) == n
  {
    if n > 0 { AndSelf(n / 2); }
  }

  lemma {:induction false} HalveEven(m: nat)
    requires m > 0
    ensures IsPow2(2 * m) <==> IsPow2(m)
  {
    assert (2 * m) / 2 == m && (2 * m - 1) / 2 == m - 1;
    if m > 1 { assert BitAnd(2 * m, 2 * m - 1) == 2 * BitAnd(m, m - 1); }
  }

  lemma {:induction false} OddIsNot(m: nat)
    requires m > 0
    ensures !IsPow2(2 * m + 1)
  {
    assert (2 * m + 1) / 2 == m && (2 * m) / 2 == m;
    AndSelf(m);
    assert BitAnd(2 * m + 1, 2 * m) == 2 * BitAnd(m, m);
  }

  ghost predicate IsSomePow2(n: nat) { exists k: nat :: n == Pow2(k) }

  lemma {:induction false} Pow2Passes(k: nat)
    ensures IsPow2(Pow2(k))
  {
    if k > 0 {
      Pow2Passes(k - 1);
      HalveEven(Pow2(k - 1));
    }
  }

  lemma {:induction false} PassesIsPow2(n: nat) returns (k: nat)
    requires IsPow2(n)
    ensures n == Pow2(k)
  {
    k := 0;
    if n > 1 && n % 2 == 1 {
      OddIsNot(n / 2);
    } else if n > 1 {
      HalveEven(n / 2);
      var h := PassesIsPow2(n / 2);
      k := h + 1;
    }
  }

  /** The bit trick accepts exactly the powers of two. */
  lemma {:induction false} IsPow2Exact(n: nat)
    ensures IsPow2(n) <==> IsSomePow2(n)
  {
    if IsPow2(n) {
      var k := PassesIsPow2(n);
    }
    if k: nat :| n == Pow2(k) {
      Pow2Passes(k);
    }
  }

  lemma {:induction false} ScaleKeeps(a: nat, m: nat)
    requires m > 0
    ensures Shl(m, a) > 0 && (IsPow2(Shl(m, a)) <==> IsPow2(m))
  {
    if a > 0 {
      var h := Shl(m, a - 1);
      ScaleKeeps(a - 1, m);
      MulTwice(m, Pow2(a - 1));
      assert Shl(m, a) == 2 * h;
      HalveEven(h);
    }
  }

  // ---------------------------------------------------------------- the sweep

  const START: nat := 4096
  const STEP: nat := 1024

  // The k-th size: four equally spaced points in each octave above 4096.
  function Point(k: nat): nat { Shl(4 + k % 4, 10 + k / 4) }

  function StepAt(k: nat): nat { Shl(1, 10 + k / 4) }

  lemma {:induction false} PointStep(k: nat)
    ensures Point(k) + StepAt(k) == Point(k + 1)
    ensures IsPow2(Point(k + 1)) <==> (k + 1) % 4 == 0
    ensures StepAt(k + 1) == if (k + 1) % 4 == 0 then 2 * StepAt(k) else StepAt(k)
    ensures StepAt(k) > 0 && 4 * StepAt(k) <= Point(k)
  {
    var a, j := 10 + k / 4, k % 4;
    var p := Pow2(a);
    assert (4 + j) * p + 1 * p == (5 + j) * p;
    assert Pow2(a + 1) == 2 * p;
    ScaleKeeps(10 + (k + 1) / 4, 4 + (k + 1) % 4);
    SmallPowers();
    if j < 3 {
      assert (k + 1) % 4 == j + 1 && (k + 1) / 4 == k / 4;
    } else {
      assert (k + 1) % 4 == 0 && (k + 1) / 4 == k / 4 + 1;
      assert 4 * (2 * p) == 8 * p;
    }
    assert (4 + j) * p >= 4 * p by { MulAtLeast(4 + j, p); }
  }

  lemma {:induction false} SmallPowers()
    ensures IsPow2(4) && !IsPow2(5) && !IsPow2(6) && !IsPow2(7)
  {
    HalveEven(1);
    HalveEven(2);
    HalveEven(3);
    OddIsNot(1);
    OddIsNot(2);
    OddIsNot(3);
  }

  // The points of one octave are a quarter of it apart.
  lemma {:induction false} OctavePoints(o: nat, j: nat)
    requires j < 4
    ensures Point(4 * o + j) == Pow2(12 + o) + j * Pow2(10 + o)
  {
    var p := Pow2(10 + o);
    assert (4 * o + j) % 4 == j && (4 * o + j) / 4 == o;
    assert Pow2(12 + o) == 2 * Pow2(11 + o) == 4 * p;
    assert (4 + j) * p == 4 * p + j * p;
  }

  lemma {:induction false} NextPoint(k: nat)
    ensures Point(k) < Point(k + 1) && 4 * (Point(k + 1) - Point(k)) <= Point(k)
  {
    PointStep(k);
  }

  lemma {:induction false} PointsIncrease(i: nat, j: nat)
    requires i < j
    ensures Point(i) < Point(j)
  {
    NextPoint(j - 1);
    if i < j - 1 { PointsIncrease(i, j - 1); }
  }

  /** Each octave has exactly four points: 4096 * 2^o is the point 4 * o. */
  lemma {:induction false} OctaveStart(o: nat)
    ensures Point(4 * o) == Pow2(12 + o)
  {
    assert (4 * o) % 4 == 0 && (4 * o) / 4 == o;
    Pow2Add(10 + o, 2);
    assert Pow2(2) == 4;
  }

  ghost predicate IsSweep(ranges: seq<nat>, max: int) {
    && ranges != []
    && (forall k :: 0 <= k < |ranges| ==> ranges[k] == Point(k))
    && ranges[|ranges| - 1] >= max
    && (|ranges| > 1 ==> ranges[|ranges| - 2] < max)
  }

  /** The sweep visits every power of two from 4096 up to its last size, in increasing
      order and with steps of at most a quarter of the size. */
  lemma {:induction false} SweepCovers(ranges: seq<nat>, max: int, p: nat)
    requires IsSweep(ranges, max) && p >= 12 && Pow2(p) <= ranges[|ranges| - 1]
    ensures 4 * (p - 12) < |ranges| && ranges[4 * (p - 12)] == Pow2(p)
    ensures forall i, j :: 0 <= i < j < |ranges| ==> ranges[i] < ranges[j]
    ensures forall i, j :: 0 <= i && i + 1 == j < |ranges| ==> 4 * (ranges[j] - ranges[i]) <= ranges[i]
  {
    OctaveStart(p - 12);
    if 4 * (p - 12) >= |ranges| { PointsIncrease(|ranges| - 1, 4 * (p - 12)); }
    forall i, j | 0 <= i < j < |ranges| ensures ranges[i] < ranges[j] { PointsIncrease(i, j); }
    forall i, j | 0 <= i && i + 1 == j < |ranges| ensures 4 * (ranges[j] - ranges[i]) <= ranges[i] { NextPoint(i); }
  }

  // The sizes so far and the step to the next one.
  ghost predicate Sweeping(ranges: seq<nat>, step: nat) {
    ranges != [] && step == StepAt(|ranges| - 1) && forall k :: 0 <= k < |ranges| ==> ranges[k] == Point(k)
  }

  lemma {:induction false} SweepingStep(ranges: seq<nat>, step: nat)
    requires Sweeping(ranges, step)
    ensures var next := ranges[|ranges| - 1] + step;
            step > 0 && Sweeping(ranges + [next], if IsPow2(next) then step * 2 else step)
  {
    NextSize(|ranges| - 1, ranges[|ranges| - 1], step);
  }

  lemma {:induction false} NextSize(k: nat, size: nat, step: nat)
    requires size == Point(k) && step == StepAt(k)
    ensures step > 0 && size + step == Point(k + 1)
    ensures StepAt(k + 1) == if IsPow2(size + step) then step * 2 else step
  {
    PointStep(k);
  }

  method Sweep(max: int) returns (ranges: seq<nat>)
    ensures IsSweep(ranges, max)
  {
    ranges := [START];
    var step := STEP;
    PointAtZero();
    while ranges[|ranges| - 1] < max
      invariant Sweeping(ranges, step)
      invariant |ranges| > 1 ==> ranges[|ranges| - 2] < max
      decreases max - ranges[|ranges| - 1]
    {
      SweepingStep(ranges, step);
      var next := ranges[|ranges| - 1] + step;
      if IsPow2(next) {
        step := step * 2;
      }
      ranges := ranges + [next];
    }
  }

  lemma {:induction false} PointAtZero()
    ensures Point(0) == START && StepAt(0) == STEP
  {
    OctaveStart(0);
    Pow2At7();
    Pow2Add(8, 4);
    Pow2Add(8, 2);
    assert Pow2(4) == 16 && Pow2(2) == 4;
  }
}

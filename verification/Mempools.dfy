/** Associating memory zones with memory pools, and the size totals of the summary
    (spdk/scripts/dpdk_mem_info.py).

    A zone belongs to every pool whose name occurs in the zone's name.  Zones of some
    pool are then taken off the general list, and the summary adds up pools and
    remaining zones separately.
 */
module Mempools {
  import opened PyList

  class MemZone {
    const name: string
    const size: nat

    constructor (name: string, size: nat)
      ensures this.name == name && this.size == size
    {
      this.name, this.size := name, size;
    }
  }

  class Pool {
    const name: string
    var memzones: seq<MemZone>

    constructor (name: string)
      ensures this.name == name && memzones == []
    {
      this.name, memzones := name, [];
    }

    method AddMemzone(z: MemZone)
      modifies this
      ensures memzones == old(memzones) + [z]
    {
      memzones := memzones + [z];
    }
  }

  // "name in text" on strings
  predicate Occurs(name: string, text: string) {
    exists k :: 0 <= k <= |text| && OccursAt(name, text, k)
  }

  predicate OccursAt(name: string, text: string, k: nat) {
    k + |name| <= |text| && text[k..k + |name|] == name
  }

  /** A name occurs in a text exactly if the text is the name with something, or nothing,
      before and behind it. */
  lemma {:induction false} OccursExact(name: string, text: string)
    ensures Occurs(name, text) <==> exists a, b :: text == a + name + b
  {
    if k: nat :| k <= |text| && OccursAt(name, text, k) {
      assert text == text[..k] + name + text[k + |name|..];
    }
    if a, b :| text == a + name + b {
      assert text[|a|..|a| + |name|] == name;
      assert OccursAt(name, text, |a|);
    }
  }

  // ---------------------------------------------------------------- specification

  // The zones of pool `name` among the first n.
  function Claimed(zones: seq<MemZone>, n: nat, name: string): seq<MemZone>
    requires n <= |zones|
  {
    if n == 0 then []
    else Claimed(zones, n - 1, name) + (if Occurs(name, zones[n - 1].name) then [zones[n - 1]] else [])
  }

  // How many of the first m pool names occur in the name of z.
  function Claims(z: MemZone, names: seq<string>, m: nat): nat
    requires m <= |names|
  {
    if m == 0 then 0 else Claims(z, names, m - 1) + (if Occurs(names[m - 1], z.name) then 1 else 0)
  }

  // The first n zones without those in `gone`.
  function Without(zones: seq<MemZone>, n: nat, gone: set<MemZone>): seq<MemZone>
    requires n <= |zones|
  {
    if n == 0 then [] else Without(zones, n - 1, gone) + (if zones[n - 1] in gone then [] else [zones[n - 1]])
  }

  // The first n zones that no pool claims.
  function Unclaimed(zones: seq<MemZone>, n: nat, names: seq<string>): seq<MemZone>
    requires n <= |zones|
  {
    if n == 0 then []
    else Unclaimed(zones, n - 1, names) + (if Claims(zones[n - 1], names, |names|) == 0 then [zones[n - 1]] else [])
  }

  // get_memzone_size_sum and get_total_memzone_size
  function Size(zones: seq<MemZone>, n: nat): nat
    requires n <= |zones|
  {
    if n == 0 then 0 else Size(zones, n - 1) + zones[n - 1].size
  }

  function Total(zones: seq<MemZone>): nat { Size(zones, |zones|) }

  // get_total_mempool_size, once the first n zones are associated with m pools
  function PoolTotal(zones: seq<MemZone>, n: nat, names: seq<string>, m: nat): nat
    requires n <= |zones| && m <= |names|
  {
    if m == 0 then 0 else PoolTotal(zones, n, names, m - 1) + Total(Claimed(zones, n, names[m - 1]))
  }

  // ---------------------------------------------------------------- the totals

  lemma {:induction false} SizePrefix(s: seq<MemZone>, t: seq<MemZone>, n: nat)
    requires n <= |s| && s <= t
    ensures Size(t, n) == Size(s, n)
  {
    if n > 0 {
      SizePrefix(s, t, n - 1);
      assert t[n - 1] == s[n - 1];
    }
  }

  lemma {:induction false} TotalSnoc(s: seq<MemZone>, z: MemZone)
    ensures Total(s + [z]) == Total(s) + z.size
  {
    SizePrefix(s, s + [z], |s|);
    assert (s + [z])[|s|] == z;
  }

  lemma {:induction false} ClaimedTotal(zones: seq<MemZone>, n: nat, name: string)
    requires n < |zones|
    ensures Total(Claimed(zones, n + 1, name)) ==
            Total(Claimed(zones, n, name)) + if Occurs(name, zones[n].name) then zones[n].size else 0
  {
    var c := Claimed(zones, n, name);
    if Occurs(name, zones[n].name) { TotalSnoc(c, zones[n]); } else { assert c + [] == c; }
  }

  lemma {:induction false} MulSucc(a: nat, b: nat)
    ensures a * (b + 1) == a * b + a
  {
  }

  lemma {:induction false} PoolTotalStep(zones: seq<MemZone>, n: nat, names: seq<string>, m: nat)
    requires n < |zones| && m <= |names|
    ensures PoolTotal(zones, n + 1, names, m) == PoolTotal(zones, n, names, m) + zones[n].size * Claims(zones[n], names, m)
  {
    if m > 0 {
      PoolTotalStep(zones, n, names, m - 1);
      ClaimedTotal(zones, n, names[m - 1]);
      MulSucc(zones[n].size, Claims(zones[n], names, m - 1));
    }
  }

  lemma {:induction false} PoolTotalStart(zones: seq<MemZone>, names: seq<string>, m: nat)
    requires m <= |names|
    ensures PoolTotal(zones, 0, names, m) == 0
  {
    if m > 0 { PoolTotalStart(zones, names, m - 1); }
  }

  // Among the first n zones, none of positive size is claimed by two pools.
  ghost predicate ClaimedOnce(zones: seq<MemZone>, n: nat, names: seq<string>)
    requires n <= |zones|
  {
    forall i :: 0 <= i < n ==> AtMostOnce(zones[i], names)
  }

  predicate AtMostOnce(z: MemZone, names: seq<string>) { z.size == 0 || Claims(z, names, |names|) <= 1 }

  lemma {:induction false} OneZone(size: nat, claims: nat)
    ensures claims > 0 ==> size * claims >= size
    ensures claims > 0 ==> (size * claims == size <==> size == 0 || claims == 1)
    ensures claims == 0 ==> size * claims == 0
  {
    if claims > 1 {
      MulSucc(size, claims - 1);
      if size > 0 { assert size * (claims - 1) > 0; }
    }
  }

  // What one zone adds to the summary: its size for each pool, or once if it has none.
  function Share(z: MemZone, names: seq<string>): nat {
    var c := Claims(z, names, |names|);
    if c == 0 then z.size else z.size * c
  }

  function Shares(zones: seq<MemZone>, n: nat, names: seq<string>): nat
    requires n <= |zones|
  {
    if n == 0 then 0 else Shares(zones, n - 1, names) + Share(zones[n - 1], names)
  }

  // The pools and the remaining zones of the summary, over the first n zones.
  function Summary(zones: seq<MemZone>, n: nat, names: seq<string>): nat
    requires n <= |zones|
  {
    PoolTotal(zones, n, names, |names|) + Total(Unclaimed(zones, n, names))
  }

  lemma {:induction false} SummaryStep(zones: seq<MemZone>, n: nat, names: seq<string>)
    requires n < |zones|
    ensures Summary(zones, n + 1, names) == Summary(zones, n, names) + Share(zones[n], names)
  {
    var c := Claims(zones[n], names, |names|);
    PoolTotalStep(zones, n, names, |names|);
    UnclaimedTotal(zones, n, names);
    if c == 0 { assert zones[n].size * c == 0; }
  }

  lemma {:induction false} SummaryIsShares(zones: seq<MemZone>, n: nat, names: seq<string>)
    requires n <= |zones|
    ensures Summary(zones, n, names) == Shares(zones, n, names)
  {
    if n == 0 {
      PoolTotalStart(zones, names, |names|);
    } else {
      SummaryIsShares(zones, n - 1, names);
      SummaryStep(zones, n - 1, names);
    }
  }

  lemma {:induction false} ShareBound(z: MemZone, names: seq<string>)
    ensures Share(z, names) >= z.size && (Share(z, names) == z.size <==> AtMostOnce(z, names))
  {
    OneZone(z.size, Claims(z, names, |names|));
  }

  lemma {:induction false} SharesBound(zones: seq<MemZone>, n: nat, names: seq<string>)
    requires n <= |zones|
    ensures Shares(zones, n, names) >= Size(zones, n)
    ensures Shares(zones, n, names) == Size(zones, n) <==> ClaimedOnce(zones, n, names)
  {
    if n > 0 {
      SharesBound(zones, n - 1, names);
      ShareBound(zones[n - 1], names);
      ClaimedOnceStep(zones, n - 1, names);
    }
  }

  lemma {:induction false} UnclaimedTotal(zones: seq<MemZone>, n: nat, names: seq<string>)
    requires n < |zones|
    ensures Total(Unclaimed(zones, n + 1, names)) ==
            Total(Unclaimed(zones, n, names)) + if Claims(zones[n], names, |names|) == 0 then zones[n].size else 0
  {
    var u := Unclaimed(zones, n, names);
    if Claims(zones[n], names, |names|) == 0 { TotalSnoc(u, zones[n]); } else { assert u + [] == u; }
  }

  lemma {:induction false} ClaimedOnceStep(zones: seq<MemZone>, n: nat, names: seq<string>)
    requires n < |zones|
    ensures ClaimedOnce(zones, n + 1, names) <==>
            ClaimedOnce(zones, n, names) && AtMostOnce(zones[n], names)
  {
  }

  /** The pools and the remaining zones in the summary never add up to less than all
      zones, and they add up to exactly that if and only if no zone of positive size
      carries the names of two pools. */
  lemma {:induction false} TotalsExact(zones: seq<MemZone>, names: seq<string>)
    ensures Summary(zones, |zones|, names) >= Total(zones)
    ensures Summary(zones, |zones|, names) == Total(zones) <==> ClaimedOnce(zones, |zones|, names)
  {
    SummaryIsShares(zones, |zones|, names);
    SharesBound(zones, |zones|, names);
  }

  // Pools "a" and "ab": a zone called "ab" is counted twice.
  lemma {:induction false} NameInsideName(z: MemZone)
    requires z.name == "ab" && z.size > 0
    ensures Summary([z], 1, ["a", "ab"]) > Total([z])
  {
    var names := ["a", "ab"];
    assert OccursAt(names[0], z.name, 0) && OccursAt(names[1], z.name, 0);
    assert Claims(z, names, 1) == Claims(z, names, 0) + 1;
    assert Claims(z, names, 2) == 2;
    var zones := [z];
    assert zones[0] == z && |names| == 2 && !AtMostOnce(zones[0], names);
    assert !ClaimedOnce(zones, 1, names);
    TotalsExact([z], names);
  }

  // ---------------------------------------------------------------- removing from the list

  lemma {:induction false} WithoutMembers(zones: seq<MemZone>, n: nat, gone: set<MemZone>, z: MemZone)
    requires n <= |zones|
    ensures z in Without(zones, n, gone) <==> z in zones[..n] && z !in gone
  {
    if n > 0 {
      WithoutMembers(zones, n - 1, gone, z);
      assert zones[..n] == zones[..n - 1] + [zones[n - 1]];
    }
  }

  lemma {:induction false} WithoutDistinct(zones: seq<MemZone>, n: nat, gone: set<MemZone>)
    requires n <= |zones| && Distinct(zones)
    ensures Distinct(Without(zones, n, gone))
  {
    if n > 0 {
      WithoutDistinct(zones, n - 1, gone);
      WithoutMembers(zones, n - 1, gone, zones[n - 1]);
    }
  }

  lemma {:induction false} WithoutAbsent(zones: seq<MemZone>, n: nat, gone: set<MemZone>, z: MemZone)
    requires n <= |zones| && z !in zones[..n]
    ensures Without(zones, n, gone + {z}) == Without(zones, n, gone)
  {
    if n > 0 {
      assert zones[..n] == zones[..n - 1] + [zones[n - 1]];
      WithoutAbsent(zones, n - 1, gone, z);
    }
  }

  // Taking out the entry at i is the same as adding it to `gone`.
  lemma {:induction false} WithoutRemove(zones: seq<MemZone>, n: nat, gone: set<MemZone>, i: nat)
    requires n <= |zones| && Distinct(zones) && i < |Without(zones, n, gone)|
    ensures var w := Without(zones, n, gone);
            Without(zones, n, gone + {w[i]}) == w[..i] + w[i + 1..]
  {
    var w, l := Without(zones, n, gone), zones[n - 1];
    var p := Without(zones, n - 1, gone);
    if i < |p| {
      WithoutMembers(zones, n - 1, gone, p[i]);
      WithoutRemove(zones, n - 1, gone, i);
      LastIsNew(zones, n);
      RemoveBefore(p, if l in gone then [] else [l], i);
    } else {
      LastIsNew(zones, n);
      WithoutAbsent(zones, n - 1, gone, l);
      assert w[..i] == p && w[i + 1..] == [];
    }
  }

  lemma {:induction false} LastIsNew(zones: seq<MemZone>, n: nat)
    requires 0 < n <= |zones| && Distinct(zones)
    ensures zones[n - 1] !in zones[..n - 1]
  {
  }

  lemma {:induction false} RemoveBefore(p: seq<MemZone>, q: seq<MemZone>, i: nat)
    requires i < |p|
    ensures (p + q)[..i] + (p + q)[i + 1..] == p[..i] + p[i + 1..] + q && (p + q)[i] == p[i]
  {
  }

  lemma {:induction false} WithoutNone(zones: seq<MemZone>, n: nat)
    requires n <= |zones|
    ensures Without(zones, n, {}) == zones[..n]
  {
    if n > 0 {
      WithoutNone(zones, n - 1);
      assert zones[..n] == zones[..n - 1] + [zones[n - 1]];
    }
  }

  lemma {:induction false} ClaimedMembers(zones: seq<MemZone>, n: nat, name: string, z: MemZone)
    requires n <= |zones|
    ensures z in Claimed(zones, n, name) <==> z in zones[..n] && Occurs(name, z.name)
  {
    if n > 0 {
      ClaimedMembers(zones, n - 1, name, z);
      assert zones[..n] == zones[..n - 1] + [zones[n - 1]];
    }
  }

  lemma {:induction false} ClaimsNone(z: MemZone, names: seq<string>, m: nat)
    requires m <= |names|
    ensures Claims(z, names, m) == 0 <==> forall i :: 0 <= i < m ==> !Occurs(names[i], z.name)
  {
    if m > 0 { ClaimsNone(z, names, m - 1); }
  }

  // `gone` holds exactly the zones that the first m pools claim.
  ghost predicate Gone(zones: seq<MemZone>, names: seq<string>, m: nat, gone: set<MemZone>)
    requires m <= |names|
  {
    forall z :: z in zones ==> (z in gone <==> Claims(z, names, m) > 0)
  }

  lemma {:induction false} GoneIsUnclaimed(zones: seq<MemZone>, n: nat, names: seq<string>, gone: set<MemZone>)
    requires n <= |zones| && Gone(zones, names, |names|, gone)
    ensures Without(zones, n, gone) == Unclaimed(zones, n, names)
  {
    if n > 0 {
      GoneIsUnclaimed(zones, n - 1, names, gone);
      assert zones[n - 1] in zones;
    }
  }

  lemma {:induction false} GoneStep(zones: seq<MemZone>, names: seq<string>, m: nat, before: set<MemZone>, gone: set<MemZone>)
    requires m < |names| && Gone(zones, names, m, before)
    requires forall z :: z in gone <==> z in before || z in Claimed(zones, |zones|, names[m])
    ensures Gone(zones, names, m + 1, gone)
  {
    assert zones[..|zones|] == zones;
    forall z | z in zones ensures z in gone <==> Claims(z, names, m + 1) > 0 {
      ClaimedMembers(zones, |zones|, names[m], z);
    }
  }

  // ---------------------------------------------------------------- the program

  class Memory {
    var pools: seq<Pool>
    var memzones: seq<MemZone>

    constructor (pools: seq<Pool>, memzones: seq<MemZone>)
      ensures this.pools == pools && this.memzones == memzones
    {
      this.pools, this.memzones := pools, memzones;
    }

    // the loop over the zones for one pool
    method Collect(pool: Pool)
      requires pool.memzones == []
      modifies pool
      ensures pool.memzones == Claimed(memzones, |memzones|, pool.name)
    {
      for n := 0 to |memzones|
        invariant pool.memzones == Claimed(memzones, n, pool.name)
      {
        if Occurs(pool.name, memzones[n].name) {
          pool.AddMemzone(memzones[n]);
        }
      }
    }

    // the loop over one pool's zones, taking each off the general list
    method Release(zones: seq<MemZone>, ghost all: seq<MemZone>, ghost before: set<MemZone>) returns (ghost gone: set<MemZone>)
      requires Distinct(all) && memzones == Without(all, |all|, before) && forall z :: z in zones ==> z in all
      modifies this`memzones
      ensures memzones == Without(all, |all|, gone)
      ensures forall z :: z in gone <==> z in before || z in zones
    {
      gone := before;
      for k := 0 to |zones|
        invariant memzones == Without(all, |all|, gone)
        invariant forall z :: z in gone <==> z in before || z in zones[..k]
      {
        var z := zones[k];
        WithoutMembers(all, |all|, gone, z);
        assert all[..|all|] == all && zones[..k + 1] == zones[..k] + [z];
        if z in memzones {
          ghost var i :| 0 <= i < |memzones| && memzones[i] == z;
          WithoutDistinct(all, |all|, gone);
          RemoveAt(memzones, i);
          WithoutRemove(all, |all|, gone, i);
          memzones := RemoveFirst(memzones, z);
          gone := gone + {z};
        }
      }
      assert zones[..|zones|] == zones;
    }

    // the first loop over the pools
    method CollectAll(ghost names: seq<string>)
      requires Distinct(pools) && Named(pools, names)
      requires forall i :: 0 <= i < |pools| ==> pools[i].memzones == []
      modifies pools
      ensures Holding(pools, names, memzones)
    {
      for m := 0 to |pools|
        invariant forall i :: 0 <= i < m ==> pools[i].memzones == Claimed(memzones, |memzones|, names[i])
        invariant forall i :: m <= i < |pools| ==> pools[i].memzones == []
      {
        Collect(pools[m]);
      }
    }

    // the second loop over the pools
    method ReleaseAll(ghost names: seq<string>)
      requires Distinct(memzones) && Named(pools, names) && Holding(pools, names, memzones)
      modifies this`memzones
      ensures memzones == Unclaimed(old(memzones), |old(memzones)|, names)
    {
      ghost var all := memzones;
      ghost var gone: set<MemZone> := {};
      WithoutNone(all, |all|);
      assert all[..|all|] == all;
      for m := 0 to |pools|
        invariant memzones == Without(all, |all|, gone) && Gone(all, names, m, gone)
      {
        ghost var before := gone;
        ClaimedFrom(all, names[m]);
        gone := Release(pools[m].memzones, all, before);
        GoneStep(all, names, m, before, gone);
      }
      GoneIsUnclaimed(all, |all|, names, gone);
    }

    /** associate_memzones_and_mempools: each pool gets, in order, the zones whose name
        contains its own, and the zones left on the list are those of no pool. */
    method Associate(ghost names: seq<string>)
      requires Distinct(memzones) && Distinct(pools) && Named(pools, names)
      requires forall i :: 0 <= i < |pools| ==> pools[i].memzones == []
      modifies this`memzones, pools
      ensures Holding(pools, names, old(memzones))
      ensures memzones == Unclaimed(old(memzones), |old(memzones)|, names)
    {
      CollectAll(names);
      ReleaseAll(names);
    }
  }

  ghost predicate Named(pools: seq<Pool>, names: seq<string>) {
    |names| == |pools| && forall i :: 0 <= i < |pools| ==> pools[i].name == names[i]
  }

  ghost predicate Holding(pools: seq<Pool>, names: seq<string>, zones: seq<MemZone>)
    requires |names| == |pools|
    reads pools
  {
    forall i :: 0 <= i < |pools| ==> pools[i].memzones == Claimed(zones, |zones|, names[i])
  }

  lemma {:induction false} ClaimedFrom(zones: seq<MemZone>, name: string)
    ensures forall z :: z in Claimed(zones, |zones|, name) ==> z in zones
  {
    forall z | z in Claimed(zones, |zones|, name) ensures z in zones { ClaimedMembers(zones, |zones|, name, z); }
  }

  // get_total_memzone_size, and get_memzone_size_sum on a pool's zones
  method SizeSum(zones: seq<MemZone>) returns (size: nat)
    ensures size == Total(zones)
  {
    size := 0;
    for n := 0 to |zones|
      invariant size == Size(zones, n)
    {
      size := size + zones[n].size;
    }
  }
}

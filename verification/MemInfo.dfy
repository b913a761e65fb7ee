/** Associating heap elements with memory zones (spdk/scripts/dpdk_mem_info.py).

    For each zone the program walks a heap's list of busy elements and moves those that
    contain the zone to another list, removing them from the list it is iterating
    over.  Python then skips the element after each removed one.
 */
module MemInfo {
  import opened Common
  import opened PyList

  class Zone {
    const name: string
    const size: nat
    const address: nat

    constructor (name: string, size: nat, address: nat)
      ensures this.name == name && this.size == size && this.address == address
    {
      this.name, this.size, this.address := name, size, address;
    }
  }

  class Element {
    const addr: nat
    const size: nat
    var memzone: Option<Zone>

    constructor (addr: nat, size: nat)
      ensures this.addr == addr && this.size == size && memzone == None
    {
      this.addr, this.size, memzone := addr, size, None;
    }

    // check_memzone_compatibility
    method CheckMemzoneCompatibility(z: Zone) returns (b: bool)
      modifies this
      ensures b == Contains(this, z)
      ensures memzone == if b then Some(z) else old(memzone)
    {
      var elementEnd, zoneEnd := addr + size, z.address + z.size;
      if addr <= z.address && elementEnd >= zoneEnd {
        memzone := Some(z);
        return true;
      }
      return false;
    }
  }

  predicate Contains(e: Element, z: Zone) {
    e.addr <= z.address && z.address + z.size <= e.addr + e.size
  }

  /** An element contains a zone exactly if every address of the zone is one of its own;
      for an empty zone, if the zone's address is one of its own or its end. */
  lemma {:induction false} ContainsExact(e: Element, z: Zone)
    ensures z.size > 0 ==>
              (Contains(e, z) <==> forall a :: z.address <= a < z.address + z.size ==> Covers(e, a))
    ensures z.size == 0 ==> (Contains(e, z) <==> Covers(e, z.address) || z.address == e.addr + e.size)
  {
    if z.size > 0 && forall a :: z.address <= a < z.address + z.size ==> Covers(e, a) {
      assert Covers(e, z.address) && Covers(e, z.address + z.size - 1);
    }
  }

  ghost predicate Covers(e: Element, a: int) { e.addr <= a < e.addr + e.size }

  // ---------------------------------------------------------------- one pass, as a function

  // What one pass for zone z takes out of the list: after a removal the next element
  // is never looked at.
  function Moved(s: seq<Element>, z: Zone): seq<Element> {
    if s == [] then []
    else if Contains(s[0], z) then [s[0]] + (if |s| == 1 then [] else Moved(s[2..], z))
    else Moved(s[1..], z)
  }

  function Kept(s: seq<Element>, z: Zone): seq<Element> {
    if s == [] then []
    else if Contains(s[0], z) then (if |s| == 1 then [] else [s[1]] + Kept(s[2..], z))
    else [s[0]] + Kept(s[1..], z)
  }

  // What the pass is meant to do.
  function Inside(s: seq<Element>, z: Zone): seq<Element> {
    if s == [] then [] else (if Contains(s[0], z) then [s[0]] else []) + Inside(s[1..], z)
  }

  function Outside(s: seq<Element>, z: Zone): seq<Element> {
    if s == [] then [] else (if Contains(s[0], z) then [] else [s[0]]) + Outside(s[1..], z)
  }

  ghost predicate NoNeighbours(s: seq<Element>, z: Zone) {
    forall i, j :: 0 <= i && i + 1 == j < |s| ==> !(Contains(s[i], z) && Contains(s[j], z))
  }

  lemma {:induction false} PassMeetsSpec(s: seq<Element>, z: Zone)
    requires NoNeighbours(s, z)
    ensures Moved(s, z) == Inside(s, z) && Kept(s, z) == Outside(s, z)
  {
    if s != [] {
      if Contains(s[0], z) && |s| > 1 {
        PassMeetsSpec(s[2..], z);
        assert !Contains(s[1], z);
        assert s[1..][1..] == s[2..] && s[1..][0] == s[1];
      } else {
        PassMeetsSpec(s[1..], z);
      }
    }
  }

  lemma {:induction false} PassLengths(s: seq<Element>, z: Zone)
    ensures |Moved(s, z)| + |Kept(s, z)| == |s|
    ensures |Moved(s, z)| <= |Inside(s, z)|
    ensures !NoNeighbours(s, z) ==> |Moved(s, z)| < |Inside(s, z)|
  {
    if s != [] {
      if Contains(s[0], z) && |s| > 1 {
        PassLengths(s[2..], z);
        assert s[1..][1..] == s[2..] && s[1..][0] == s[1];
      } else {
        PassLengths(s[1..], z);
      }
    }
  }

  /** One pass moves exactly the elements that contain the zone, if and only if no two
      elements next to each other in the list both contain it. */
  lemma {:induction false} PassExact(s: seq<Element>, z: Zone)
    ensures Moved(s, z) == Inside(s, z) <==> NoNeighbours(s, z)
    ensures NoNeighbours(s, z) ==> Kept(s, z) == Outside(s, z)
  {
    PassLengths(s, z);
    if NoNeighbours(s, z) { PassMeetsSpec(s, z); }
  }

  // Putting x and y back in front of a list that was taken apart.
  lemma {:induction false} KeepOne(x: Element, k: seq<Element>, m: seq<Element>, s: seq<Element>)
    requires s != [] && x == s[0] && multiset(k) + multiset(m) == multiset(s[1..])
    ensures multiset([x] + k) + multiset(m) == multiset(s)
  {
    assert s == [x] + s[1..];
  }

  lemma {:induction false} MoveOne(x: Element, k: seq<Element>, m: seq<Element>, s: seq<Element>)
    requires s != [] && x == s[0] && multiset(k) + multiset(m) == multiset(s[1..])
    ensures multiset(k) + multiset([x] + m) == multiset(s)
  {
    assert s == [x] + s[1..];
  }

  /** Every pass, skipping or not, neither loses nor duplicates an element. */
  lemma {:induction false} PassConserves(s: seq<Element>, z: Zone)
    ensures multiset(Kept(s, z)) + multiset(Moved(s, z)) == multiset(s)
  {
    if s == [] {
    } else if !Contains(s[0], z) {
      PassConserves(s[1..], z);
      KeepOne(s[0], Kept(s[1..], z), Moved(s[1..], z), s);
    } else if |s| == 1 {
      assert s == [s[0]];
    } else {
      var k, m, t := Kept(s[2..], z), Moved(s[2..], z), s[1..];
      PassConserves(s[2..], z);
      assert t[0] == s[1] && t[1..] == s[2..];
      KeepOne(s[1], k, m, t);
      MoveOne(s[0], [s[1]] + k, m, s);
    }
  }

  lemma {:induction false} MovedMembers(s: seq<Element>, z: Zone, e: Element)
    requires e in Moved(s, z)
    ensures e in s && Contains(e, z)
  {
    if !Contains(s[0], z) {
      MovedMembers(s[1..], z, e);
    } else if e != s[0] {
      MovedMembers(s[2..], z, e);
    }
  }

  lemma {:induction false} InsideMembers(s: seq<Element>, z: Zone, e: Element)
    ensures e in Inside(s, z) <==> e in s && Contains(e, z)
  {
    if s != [] {
      InsideMembers(s[1..], z, e);
      assert e in s <==> e == s[0] || e in s[1..];
    }
  }

  // ---------------------------------------------------------------- all zones

  datatype Lists = Lists(malloc: seq<Element>, memzone: seq<Element>)

  function OnePass(l: Lists, z: Zone): Lists {
    Lists(Kept(l.malloc, z), l.memzone + Moved(l.malloc, z))
  }

  ghost function Bag(l: Lists): multiset<Element> { multiset(l.malloc) + multiset(l.memzone) }

  // After the passes for the first n zones.
  function AllPasses(l: Lists, zones: seq<Zone>, n: nat): Lists
    requires n <= |zones|
  {
    if n == 0 then l else OnePass(AllPasses(l, zones, n - 1), zones[n - 1])
  }

  // The zone recorded for e: the last one whose pass moved it.
  function Recorded(l: Lists, zones: seq<Zone>, n: nat, e: Element): Option<Zone>
    requires n <= |zones|
  {
    if n == 0 then None
    else if e in Moved(AllPasses(l, zones, n - 1).malloc, zones[n - 1]) then Some(zones[n - 1])
    else Recorded(l, zones, n - 1, e)
  }

  predicate ContainsAny(e: Element, zones: seq<Zone>, n: nat)
    requires n <= |zones|
  {
    exists i :: 0 <= i < n && Contains(e, zones[i])
  }

  // The first of the zones that e contains.
  function FirstZone(zones: seq<Zone>, n: nat, e: Element): Option<Zone>
    requires n <= |zones|
  {
    if n == 0 then None
    else
      var f := FirstZone(zones, n - 1, e);
      if f.Some? then f else if Contains(e, zones[n - 1]) then Some(zones[n - 1]) else None
  }

  function OutsideAll(s: seq<Element>, zones: seq<Zone>, n: nat): seq<Element>
    requires n <= |zones|
  {
    if n == 0 then s else Outside(OutsideAll(s, zones, n - 1), zones[n - 1])
  }

  // Of the elements that contain no earlier zone, no two neighbours contain the next.
  ghost predicate PlainAt(s: seq<Element>, zones: seq<Zone>, k: nat)
    requires k < |zones|
  {
    NoNeighbours(OutsideAll(s, zones, k), zones[k])
  }

  ghost predicate Plain(s: seq<Element>, zones: seq<Zone>, n: nat)
    requires n <= |zones|
  {
    forall k :: 0 <= k < n ==> PlainAt(s, zones, k)
  }

  // No zone lies in two elements of the list.
  ghost predicate OneOwner(s: seq<Element>, zones: seq<Zone>) {
    forall z, d, e :: z in zones && d in s && e in s && Contains(d, z) && Contains(e, z) ==> d == e
  }

  lemma {:induction false} OutsideMembers(s: seq<Element>, z: Zone, e: Element)
    ensures e in Outside(s, z) <==> e in s && !Contains(e, z)
  {
    if s != [] {
      OutsideMembers(s[1..], z, e);
      assert e in s <==> e == s[0] || e in s[1..];
    }
  }

  lemma {:induction false} OutsideDistinct(s: seq<Element>, z: Zone)
    requires Distinct(s)
    ensures Distinct(Outside(s, z))
  {
    if s != [] {
      DistinctTail(s, 0);
      OutsideDistinct(s[1..], z);
      OutsideMembers(s[1..], z, s[0]);
    }
  }

  lemma {:induction false} AnyStep(e: Element, zones: seq<Zone>, n: nat)
    requires n < |zones|
    ensures ContainsAny(e, zones, n + 1) <==> ContainsAny(e, zones, n) || Contains(e, zones[n])
  {
  }

  lemma {:induction false} OutsideAllMembers(s: seq<Element>, zones: seq<Zone>, n: nat, e: Element)
    requires n <= |zones|
    ensures e in OutsideAll(s, zones, n) <==> e in s && !ContainsAny(e, zones, n)
  {
    if n > 0 {
      OutsideAllMembers(s, zones, n - 1, e);
      OutsideMembers(OutsideAll(s, zones, n - 1), zones[n - 1], e);
      AnyStep(e, zones, n - 1);
    }
  }

  lemma {:induction false} OutsideAllDistinct(s: seq<Element>, zones: seq<Zone>, n: nat)
    requires n <= |zones| && Distinct(s)
    ensures Distinct(OutsideAll(s, zones, n))
  {
    if n > 0 {
      OutsideAllDistinct(s, zones, n - 1);
      OutsideDistinct(OutsideAll(s, zones, n - 1), zones[n - 1]);
    }
  }

  ghost predicate HasBag(l: Lists, bag: multiset<Element>) { Bag(l) == bag }

  lemma {:induction false} PassesKeepBag(l: Lists, zones: seq<Zone>, n: nat, bag: multiset<Element>)
    requires n <= |zones| && HasBag(l, bag)
    ensures HasBag(AllPasses(l, zones, n), bag)
  {
    if n > 0 {
      PassesKeepBag(l, zones, n - 1, bag);
      PassKeepsBag(AllPasses(l, zones, n - 1), zones[n - 1], bag);
    }
  }

  lemma {:induction false} PassKeepsBag(l: Lists, z: Zone, bag: multiset<Element>)
    requires HasBag(l, bag)
    ensures HasBag(OnePass(l, z), bag)
  {
    OnePassConserves(l, z);
  }

  /** All passes together move elements between the two lists and nothing else. */
  lemma {:induction false} AllPassesConserve(l: Lists, zones: seq<Zone>, n: nat)
    requires n <= |zones|
    ensures Bag(AllPasses(l, zones, n)) == Bag(l)
  {
    PassesKeepBag(l, zones, n, Bag(l));
  }

  lemma {:induction false} OnePassConserves(l: Lists, z: Zone)
    ensures Bag(OnePass(l, z)) == Bag(l)
  {
    PassConserves(l.malloc, z);
    assert multiset(l.memzone + Moved(l.malloc, z)) == multiset(l.memzone) + multiset(Moved(l.malloc, z));
  }

  lemma {:induction false} PlainPasses(s: seq<Element>, zones: seq<Zone>, n: nat)
    requires n <= |zones| && Plain(s, zones, n)
    ensures AllPasses(Lists(s, []), zones, n).malloc == OutsideAll(s, zones, n)
  {
    if n > 0 {
      PlainPasses(s, zones, n - 1);
      assert PlainAt(s, zones, n - 1);
      PassExact(OutsideAll(s, zones, n - 1), zones[n - 1]);
    }
  }

  lemma {:induction false} FirstZoneFound(zones: seq<Zone>, n: nat, e: Element)
    requires n <= |zones|
    ensures FirstZone(zones, n, e).Some? <==> ContainsAny(e, zones, n)
  {
    if n > 0 { FirstZoneFound(zones, n - 1, e); }
  }

  // The pass for zone n moves e if and only if that is the first zone e contains.
  lemma {:induction false} PlainMoves(s: seq<Element>, zones: seq<Zone>, n: nat, e: Element)
    requires n < |zones| && Plain(s, zones, n + 1) && e in s
    ensures e in Moved(AllPasses(Lists(s, []), zones, n).malloc, zones[n])
            <==> FirstZone(zones, n, e).None? && Contains(e, zones[n])
  {
    FirstZoneFound(zones, n, e);
    PlainPasses(s, zones, n);
    assert PlainAt(s, zones, n);
    OutsideAllMembers(s, zones, n, e);
    PassExact(OutsideAll(s, zones, n), zones[n]);
    InsideMembers(OutsideAll(s, zones, n), zones[n], e);
  }

  lemma {:induction false} RecordedStep(l: Lists, zones: seq<Zone>, n: nat, e: Element)
    requires n < |zones|
    ensures Recorded(l, zones, n + 1, e) ==
            if e in Moved(AllPasses(l, zones, n).malloc, zones[n]) then Some(zones[n]) else Recorded(l, zones, n, e)
  {
  }

  lemma {:induction false} PlainZone(s: seq<Element>, zones: seq<Zone>, n: nat, e: Element)
    requires n <= |zones| && Plain(s, zones, n) && e in s
    ensures Recorded(Lists(s, []), zones, n, e) == FirstZone(zones, n, e)
  {
    if n > 0 {
      PlainZone(s, zones, n - 1, e);
      PlainMoves(s, zones, n - 1, e);
      RecordedStep(Lists(s, []), zones, n - 1, e);
    }
  }

  lemma {:induction false} PassGrows(l: Lists, zones: seq<Zone>, n: nat, e: Element)
    requires n < |zones|
    ensures var before := AllPasses(l, zones, n);
            e in AllPasses(l, zones, n + 1).memzone <==> e in before.memzone || e in Moved(before.malloc, zones[n])
  {
  }

  lemma {:induction false} PlainList(s: seq<Element>, zones: seq<Zone>, n: nat, e: Element)
    requires n <= |zones| && Plain(s, zones, n) && e in s
    ensures e in AllPasses(Lists(s, []), zones, n).memzone <==> ContainsAny(e, zones, n)
  {
    if n > 0 {
      PlainList(s, zones, n - 1, e);
      PlainMoves(s, zones, n - 1, e);
      PassGrows(Lists(s, []), zones, n - 1, e);
      FirstZoneFound(zones, n - 1, e);
      AnyStep(e, zones, n - 1);
    }
  }

  // Where two neighbours contain the zone, one of them is left behind.
  lemma {:induction false} Skipped(s: seq<Element>, z: Zone) returns (e: Element)
    requires Distinct(s) && !NoNeighbours(s, z)
    ensures e in s && Contains(e, z) && e !in Moved(s, z)
  {
    if Contains(s[0], z) {
      DistinctTail(s, 0);
      DistinctTail(s, 1);
      assert s[2..] == s[1..][1..];
      if Contains(s[1], z) {
        e := s[1];
      } else {
        NeighboursLater(s, z, 2);
        e := Skipped(s[2..], z);
      }
      if e in Moved(s[2..], z) { MovedMembers(s[2..], z, e); }
    } else {
      DistinctTail(s, 0);
      NeighboursLater(s, z, 1);
      e := Skipped(s[1..], z);
    }
  }

  lemma {:induction false} NeighboursLater(s: seq<Element>, z: Zone, k: nat)
    requires 0 < k <= |s| && !NoNeighbours(s, z) && !Contains(s[k - 1], z) && k <= 2
    ensures !NoNeighbours(s[k..], z)
  {
    var i, j :| 0 <= i && i + 1 == j < |s| && Contains(s[i], z) && Contains(s[j], z);
    assert s[k..][i - k] == s[i] && s[k..][j - k] == s[j];
  }

  lemma {:induction false} FirstFault(s: seq<Element>, zones: seq<Zone>, n: nat) returns (k: nat)
    requires n <= |zones| && !Plain(s, zones, n)
    ensures k < n && Plain(s, zones, k) && !PlainAt(s, zones, k)
  {
    if Plain(s, zones, n - 1) { k := n - 1; } else { k := FirstFault(s, zones, n - 1); }
  }

  lemma {:induction false} FirstZoneStays(zones: seq<Zone>, k: nat, n: nat, e: Element)
    requires k <= n <= |zones| && FirstZone(zones, k, e).Some?
    ensures FirstZone(zones, n, e) == FirstZone(zones, k, e)
  {
    if k < n { FirstZoneStays(zones, k, n - 1, e); }
  }

  lemma {:induction false} RecordedFrom(l: Lists, zones: seq<Zone>, n: nat, e: Element) returns (i: nat)
    requires n <= |zones| && Recorded(l, zones, n, e).Some?
    ensures i < n && Recorded(l, zones, n, e) == Some(zones[i]) && e in Moved(AllPasses(l, zones, i).malloc, zones[i])
  {
    if e in Moved(AllPasses(l, zones, n - 1).malloc, zones[n - 1]) { i := n - 1; } else { i := RecordedFrom(l, zones, n - 1, e); }
  }

  lemma {:induction false} LeftBehind(s: seq<Element>, zones: seq<Zone>, k: nat) returns (e: Element)
    requires Distinct(s) && k < |zones| && Plain(s, zones, k) && !PlainAt(s, zones, k)
    ensures e in s && e !in Moved(AllPasses(Lists(s, []), zones, k).malloc, zones[k])
    ensures FirstZone(zones, k + 1, e) == Some(zones[k])
  {
    OutsideAllDistinct(s, zones, k);
    PlainPasses(s, zones, k);
    e := Skipped(OutsideAll(s, zones, k), zones[k]);
    OutsideAllMembers(s, zones, k, e);
    FirstZoneFound(zones, k, e);
  }

  // An element left behind records a later zone than its first, or none.
  lemma {:induction false} FaultShows(s: seq<Element>, zones: seq<Zone>) returns (e: Element)
    requires Distinct(s) && Distinct(zones) && !Plain(s, zones, |zones|)
    ensures e in s && Recorded(Lists(s, []), zones, |zones|, e) != FirstZone(zones, |zones|, e)
  {
    var k := FirstFault(s, zones, |zones|);
    e := LeftBehind(s, zones, k);
    FirstZoneStays(zones, k + 1, |zones|, e);
    NotRecorded(Lists(s, []), zones, k, e);
  }

  lemma {:induction false} NotRecorded(l: Lists, zones: seq<Zone>, k: nat, e: Element)
    requires Distinct(zones) && k < |zones| && e !in Moved(AllPasses(l, zones, k).malloc, zones[k])
    ensures Recorded(l, zones, |zones|, e) != Some(zones[k])
  {
    if Recorded(l, zones, |zones|, e).Some? {
      var i := RecordedFrom(l, zones, |zones|, e);
    }
  }

  // Each element ends in the right list.
  ghost predicate RightLists(s: seq<Element>, zones: seq<Zone>, r: Lists) {
    forall e :: e in s ==> (e in r.malloc <==> !ContainsAny(e, zones, |zones|))
                           && (e in r.memzone <==> ContainsAny(e, zones, |zones|))
  }

  ghost predicate RightZones(s: seq<Element>, zones: seq<Zone>) {
    forall e :: e in s ==> Recorded(Lists(s, []), zones, |zones|, e) == FirstZone(zones, |zones|, e)
  }

  /** The whole association, for any elements and zones: every element records the first
      zone that it contains, if and only if no pass meets two neighbours that contain
      its zone and no earlier one.  Then each element is associated exactly when it
      contains some zone. */
  lemma {:induction false} AssociationExact(s: seq<Element>, zones: seq<Zone>)
    requires Distinct(s) && Distinct(zones)
    ensures RightZones(s, zones) <==> Plain(s, zones, |zones|)
    ensures Plain(s, zones, |zones|) ==> RightLists(s, zones, AllPasses(Lists(s, []), zones, |zones|))
  {
    if Plain(s, zones, |zones|) {
      PlainRight(s, zones);
    } else {
      var e := FaultShows(s, zones);
    }
  }

  lemma {:induction false} PlainRight(s: seq<Element>, zones: seq<Zone>)
    requires Plain(s, zones, |zones|)
    ensures RightZones(s, zones) && RightLists(s, zones, AllPasses(Lists(s, []), zones, |zones|))
  {
    forall e | e in s ensures Recorded(Lists(s, []), zones, |zones|, e) == FirstZone(zones, |zones|, e) {
      PlainZone(s, zones, |zones|, e);
    }
    var r := AllPasses(Lists(s, []), zones, |zones|);
    PlainPasses(s, zones, |zones|);
    forall e | e in s ensures (e in r.malloc <==> !ContainsAny(e, zones, |zones|))
                              && (e in r.memzone <==> ContainsAny(e, zones, |zones|)) {
      OutsideAllMembers(s, zones, |zones|, e);
      PlainList(s, zones, |zones|, e);
    }
  }

  /** In particular it does so if no zone lies in two of the elements. */
  lemma {:induction false} OneOwnerPlain(s: seq<Element>, zones: seq<Zone>)
    requires Distinct(s) && OneOwner(s, zones)
    ensures Plain(s, zones, |zones|)
  {
    forall k | 0 <= k < |zones| ensures PlainAt(s, zones, k) {
      OneOwnerAt(s, zones, k);
    }
  }

  lemma {:induction false} OneOwnerAt(s: seq<Element>, zones: seq<Zone>, k: nat)
    requires Distinct(s) && OneOwner(s, zones) && k < |zones|
    ensures PlainAt(s, zones, k)
  {
    OutsideAllDistinct(s, zones, k);
    forall e | e in OutsideAll(s, zones, k) ensures e in s { OutsideAllMembers(s, zones, k, e); }
    OneOwnerApart(s, zones, OutsideAll(s, zones, k), zones[k]);
  }

  lemma {:induction false} OneOwnerApart(s: seq<Element>, zones: seq<Zone>, t: seq<Element>, z: Zone)
    requires OneOwner(s, zones) && z in zones && Distinct(t) && forall e :: e in t ==> e in s
    ensures NoNeighbours(t, z)
  {
    forall i, j | 0 <= i && i + 1 == j < |t| ensures !(Contains(t[i], z) && Contains(t[j], z)) {
      assert t[i] != t[j];
    }
  }

  // Busy elements do not overlap.
  ghost predicate Disjoint(s: seq<Element>) {
    forall d, e :: d in s && e in s && d != e ==> d.addr + d.size <= e.addr || e.addr + e.size <= d.addr
  }

  lemma {:induction false} DisjointOneOwner(s: seq<Element>, zones: seq<Zone>)
    requires Disjoint(s) && forall z :: z in zones ==> z.size > 0
    ensures OneOwner(s, zones)
  {
  }

  // A zone of size 0 on the border of two elements lies in both, and one is skipped.
  lemma {:induction false} EmptyZoneSkips(d: Element, e: Element, z: Zone)
    requires d != e && d.addr + d.size == e.addr == z.address && z.size == 0
    ensures Disjoint([d, e])
    ensures Kept([d, e], z) == [e] && Contains(e, z)
  {
    assert [d, e][2..] == [];
  }

  // ---------------------------------------------------------------- the program

  class Heap {
    var busyMalloc: seq<Element>
    var busyMemzone: seq<Element>

    constructor (busy: seq<Element>)
      ensures busyMalloc == busy && busyMemzone == []
    {
      busyMalloc, busyMemzone := busy, [];
    }
  }

  // Where the walk over the list stands: cur[..k] is done, cur[k..] is still to come.
  ghost predicate Walk(s: seq<Element>, z: Zone, cur: seq<Element>, k: nat, moved: seq<Element>) {
    k <= |cur| && Distinct(cur) && Partitioned(s, cur, moved)
    && Kept(s, z) == cur[..k] + Kept(cur[k..], z) && Moved(s, z) == moved + Moved(cur[k..], z)
  }

  ghost predicate Partitioned(s: seq<Element>, cur: seq<Element>, moved: seq<Element>) {
    && (forall e :: e in cur ==> e in s)
    && (forall e :: e in moved ==> e in s && e !in cur)
  }

  lemma {:induction false} PartitionedMove(s: seq<Element>, cur: seq<Element>, k: nat, moved: seq<Element>)
    requires Distinct(cur) && Partitioned(s, cur, moved) && k < |cur|
    ensures Partitioned(s, cur[..k] + cur[k + 1..], moved + [cur[k]]) && Distinct(cur[..k] + cur[k + 1..])
  {
    var next := cur[..k] + cur[k + 1..];
    assert forall e :: e in next ==> e in cur;
    forall i | 0 <= i < |next| ensures next[i] != cur[k] {
      assert next[i] == if i < k then cur[i] else cur[i + 1];
    }
    forall i, j | 0 <= i < j < |next| ensures next[i] != next[j] {
      assert next[i] == if i < k then cur[i] else cur[i + 1];
      assert next[j] == if j < k then cur[j] else cur[j + 1];
    }
  }

  lemma {:induction false} WalkPast(s: seq<Element>, z: Zone, cur: seq<Element>, k: nat, moved: seq<Element>)
    requires Walk(s, z, cur, k, moved) && k < |cur| && !Contains(cur[k], z)
    ensures Walk(s, z, cur, k + 1, moved)
  {
    assert cur[k..][1..] == cur[k + 1..] && cur[k..][0] == cur[k];
    assert cur[..k + 1] == cur[..k] + [cur[k]];
    assert cur[..k] + ([cur[k]] + Kept(cur[k + 1..], z)) == cur[..k + 1] + Kept(cur[k + 1..], z);
  }

  lemma {:induction false} WalkRemove(s: seq<Element>, z: Zone, cur: seq<Element>, k: nat, moved: seq<Element>)
    requires Walk(s, z, cur, k, moved) && k < |cur| && Contains(cur[k], z)
    ensures var next := cur[..k] + cur[k + 1..];
            Walk(s, z, next, if k + 1 < |cur| then k + 1 else k, moved + [cur[k]])
  {
    var next := cur[..k] + cur[k + 1..];
    var r := cur[k..];
    PartitionedMove(s, cur, k, moved);
    assert r[0] == cur[k];
    if k + 1 < |cur| {
      assert r[1] == cur[k + 1] == next[k] && r[2..] == cur[k + 2..] == next[k + 1..];
      assert next[..k + 1] == cur[..k] + [cur[k + 1]];
      assert cur[..k] + ([cur[k + 1]] + Kept(r[2..], z)) == next[..k + 1] + Kept(r[2..], z);
      assert moved + ([cur[k]] + Moved(r[2..], z)) == moved + [cur[k]] + Moved(r[2..], z);
    } else {
      assert r == [cur[k]] && next == cur[..k] && next[..k] == next && next[k..] == [];
      assert moved + ([cur[k]] + []) == moved + [cur[k]] + [];
    }
  }

  // The body of the loop below, at index i.
  method Visit(h: Heap, z: Zone, i: nat) returns (b: bool)
    requires Distinct(h.busyMalloc) && i < |h.busyMalloc|
    modifies h, h.busyMalloc[i]
    ensures b == Contains(old(h.busyMalloc)[i], z)
    ensures old(h.busyMalloc)[i].memzone == if b then Some(z) else old(h.busyMalloc[i].memzone)
    ensures var s := old(h.busyMalloc); h.busyMalloc == if b then s[..i] + s[i + 1..] else s
    ensures h.busyMemzone == old(h.busyMemzone) + if b then [old(h.busyMalloc)[i]] else []
  {
    var e := h.busyMalloc[i];
    b := e.CheckMemzoneCompatibility(z);
    if b {
      RemoveAt(h.busyMalloc, i);
      h.busyMemzone := h.busyMemzone + [e];
      h.busyMalloc := RemoveFirst(h.busyMalloc, e);
    }
  }

  // The zones recorded while zone z is walked for: z in what was moved, else as before.
  ghost predicate Marked(s: seq<Element>, z: Zone, moved: seq<Element>, was: map<Element, Option<Zone>>)
    reads s
  {
    forall e :: e in s ==> e in was && e.memzone == if e in moved then Some(z) else was[e]
  }

  // Where the walk over heap h stands at index i.
  ghost predicate Walking(h: Heap, z: Zone, i: nat, s: seq<Element>, before: seq<Element>, moved: seq<Element>)
    reads h
  {
    && i <= |h.busyMalloc| + 1 && h.busyMemzone == before + moved
    && Walk(s, z, h.busyMalloc, if i <= |h.busyMalloc| then i else |h.busyMalloc|, moved)
  }

  // One step of the walk; moved grows by what it took.
  method WalkStep(h: Heap, z: Zone, i: nat, ghost s: seq<Element>, ghost before: seq<Element>, ghost moved: seq<Element>)
    returns (ghost moved': seq<Element>)
    requires Walking(h, z, i, s, before, moved) && i < |h.busyMalloc|
    modifies h, h.busyMalloc[i]
    ensures Walking(h, z, i + 1, s, before, moved') && |h.busyMalloc| <= old(|h.busyMalloc|)
    ensures var e := old(h.busyMalloc)[i];
            && e in s && e !in moved
            && (if Contains(e, z) then moved' == moved + [e] && e.memzone == Some(z)
                else moved' == moved && e.memzone == old(h.busyMalloc[i].memzone))
  {
    ghost var cur := h.busyMalloc;
    assert cur[i] in cur;
    var b := Visit(h, z, i);
    if b {
      WalkRemove(s, z, cur, i, moved);
      moved' := moved + [cur[i]];
    } else {
      WalkPast(s, z, cur, i, moved);
      moved' := moved;
    }
  }

  // The same with the recorded zones.
  method MarkStep(h: Heap, z: Zone, i: nat, ghost s: seq<Element>, ghost before: seq<Element>, ghost moved: seq<Element>,
                  ghost was: map<Element, Option<Zone>>)
    returns (ghost moved': seq<Element>)
    requires Walking(h, z, i, s, before, moved) && i < |h.busyMalloc| && Marked(s, z, moved, was)
    modifies h, h.busyMalloc[i]
    ensures Walking(h, z, i + 1, s, before, moved') && |h.busyMalloc| <= old(|h.busyMalloc|)
    ensures Marked(s, z, moved', was)
  {
    moved' := WalkStep(h, z, i, s, before, moved);
  }

  // The loop over one heap's busy elements for one zone.
  method WalkHeap(h: Heap, z: Zone)
    requires Distinct(h.busyMalloc)
    modifies h, set e | e in h.busyMalloc
    ensures Lists(h.busyMalloc, h.busyMemzone) == OnePass(old(Lists(h.busyMalloc, h.busyMemzone)), z)
    ensures forall e :: e in old(h.busyMalloc) ==>
              e.memzone == if e in Moved(old(h.busyMalloc), z) then Some(z) else old(e.memzone)
  {
    ghost var s := h.busyMalloc;
    ghost var before := h.busyMemzone;
    ghost var was := map e | e in s :: e.memzone;
    ghost var moved: seq<Element> := [];
    WalkStart(s, z);
    var i := 0;
    while i < |h.busyMalloc|
      invariant Walking(h, z, i, s, before, moved) && Marked(s, z, moved, was)
      decreases |h.busyMalloc| - i
    {
      assert h.busyMalloc[i] in s;
      moved := MarkStep(h, z, i, s, before, moved, was);
      i := i + 1;
    }
    WalkEnd(s, z, h.busyMalloc, moved);
  }

  lemma {:induction false} WalkStart(s: seq<Element>, z: Zone)
    requires Distinct(s)
    ensures Walk(s, z, s, 0, [])
  {
    assert s[..0] == [] && s[0..] == s;
  }

  lemma {:induction false} WalkEnd(s: seq<Element>, z: Zone, cur: seq<Element>, moved: seq<Element>)
    requires Walk(s, z, cur, |cur|, moved)
    ensures Kept(s, z) == cur && Moved(s, z) == moved
  {
    assert cur[|cur|..] == [];
  }

  lemma {:induction false} KeptMembers(s: seq<Element>, z: Zone, e: Element)
    requires e in Kept(s, z)
    ensures e in s
  {
    if !Contains(s[0], z) {
      if e != s[0] { KeptMembers(s[1..], z, e); }
    } else if e != s[1] {
      KeptMembers(s[2..], z, e);
    }
  }

  lemma {:induction false} KeptDistinct(s: seq<Element>, z: Zone)
    requires Distinct(s)
    ensures Distinct(Kept(s, z))
  {
    if s == [] {
    } else if !Contains(s[0], z) {
      DistinctTail(s, 0);
      KeptDistinct(s[1..], z);
      if s[0] in Kept(s[1..], z) { KeptMembers(s[1..], z, s[0]); }
    } else if |s| > 1 {
      DistinctTail(s, 1);
      KeptDistinct(s[2..], z);
      if s[1] in Kept(s[2..], z) { KeptMembers(s[2..], z, s[1]); }
    }
  }

  lemma {:induction false} MallocMembers(l: Lists, zones: seq<Zone>, n: nat, e: Element)
    requires n <= |zones| && e in AllPasses(l, zones, n).malloc
    ensures e in l.malloc
  {
    if n > 0 {
      KeptMembers(AllPasses(l, zones, n - 1).malloc, zones[n - 1], e);
      MallocMembers(l, zones, n - 1, e);
    }
  }

  lemma {:induction false} MallocDistinct(l: Lists, zones: seq<Zone>, n: nat)
    requires n <= |zones| && Distinct(l.malloc)
    ensures Distinct(AllPasses(l, zones, n).malloc)
  {
    if n > 0 {
      MallocDistinct(l, zones, n - 1);
      KeptDistinct(AllPasses(l, zones, n - 1).malloc, zones[n - 1]);
    }
  }

  // The lists and recorded zones of heap h, which began as l, after the first n zones.
  ghost predicate HeapState(h: Heap, l: Lists, zones: seq<Zone>, n: nat)
    requires n <= |zones|
    reads h, l.malloc
  {
    && Lists(h.busyMalloc, h.busyMemzone) == AllPasses(l, zones, n)
    && forall e :: e in l.malloc ==> e.memzone == Recorded(l, zones, n, e)
  }

  // Different heaps, none with the same element twice, sharing no element.
  ghost predicate Separate(heaps: seq<Heap>, start: seq<Lists>) {
    && |heaps| == |start|
    && (forall i, j :: 0 <= i < j < |heaps| ==> heaps[i] != heaps[j])
    && (forall i :: 0 <= i < |start| ==> Distinct(start[i].malloc))
    && (forall i, j, e :: 0 <= i < |start| && 0 <= j < |start| && e in start[i].malloc && e in start[j].malloc ==> i == j)
  }

  ghost function Elements(start: seq<Lists>): set<Element> {
    set i, e | 0 <= i < |start| && e in start[i].malloc :: e
  }

  method ZoneInHeap(h: Heap, ghost zones: seq<Zone>, ghost n: nat, z: Zone, ghost l: Lists)
    requires n < |zones| && z == zones[n] && HeapState(h, l, zones, n) && Distinct(l.malloc)
    modifies h, set e | e in l.malloc
    ensures HeapState(h, l, zones, n + 1)
  {
    ghost var before := AllPasses(l, zones, n);
    MallocDistinct(l, zones, n);
    forall e | e in before.malloc ensures e in l.malloc { MallocMembers(l, zones, n, e); }
    assert forall e :: e in h.busyMalloc ==> e in l.malloc;
    WalkHeap(h, z);
    forall e | e in l.malloc ensures e.memzone == Recorded(l, zones, n + 1, e) {
      if e in Moved(before.malloc, z) { MovedMembers(before.malloc, z, e); }
    }
  }

  // The loop over the heaps for one zone.
  method ZoneInHeaps(heaps: seq<Heap>, ghost zones: seq<Zone>, ghost n: nat, z: Zone, ghost start: seq<Lists>)
    requires Separate(heaps, start) && n < |zones| && z == zones[n]
    requires forall i :: 0 <= i < |heaps| ==> HeapState(heaps[i], start[i], zones, n)
    modifies heaps, Elements(start)
    ensures forall i :: 0 <= i < |heaps| ==> HeapState(heaps[i], start[i], zones, n + 1)
  {
    for j := 0 to |heaps|
      invariant forall i :: 0 <= i < j ==> HeapState(heaps[i], start[i], zones, n + 1)
      invariant forall i :: j <= i < |heaps| ==> HeapState(heaps[i], start[i], zones, n)
    {
      assert forall e :: e in start[j].malloc ==> e in Elements(start);
      ZoneInHeap(heaps[j], zones, n, z, start[j]);
    }
  }

  // Every element of the heap, which began as l, records the first zone it contains.
  ghost predicate RecordsFirst(l: Lists, zones: seq<Zone>)
    reads l.malloc
  {
    forall e :: e in l.malloc ==> e.memzone == FirstZone(zones, |zones|, e)
  }

  // What the whole association did to heap h, which began as l: no element is lost, the
  // recorded zones are right exactly if no pass met neighbours, and then so are the lists;
  // that is always so for disjoint elements and non-empty zones.
  ghost predicate Associated(h: Heap, l: Lists, zones: seq<Zone>)
    reads h, l.malloc
  {
    && Bag(Lists(h.busyMalloc, h.busyMemzone)) == Bag(l)
    && (l.memzone == [] && Plain(l.malloc, zones, |zones|) ==>
          RecordsFirst(l, zones) && RightLists(l.malloc, zones, Lists(h.busyMalloc, h.busyMemzone)))
    && (l.memzone == [] && Disjoint(l.malloc) && (forall z :: z in zones ==> z.size > 0) ==>
          RecordsFirst(l, zones) && RightLists(l.malloc, zones, Lists(h.busyMalloc, h.busyMemzone)))
    && (l.memzone == [] && Distinct(zones) && RecordsFirst(l, zones) ==> Plain(l.malloc, zones, |zones|))
  }

  lemma {:induction false} StateAssociates(h: Heap, l: Lists, zones: seq<Zone>)
    requires HeapState(h, l, zones, |zones|) && Distinct(l.malloc)
    ensures Associated(h, l, zones)
  {
    AllPassesConserve(l, zones, |zones|);
    if Disjoint(l.malloc) && forall z :: z in zones ==> z.size > 0 {
      DisjointOneOwner(l.malloc, zones);
      OneOwnerPlain(l.malloc, zones);
    }
    if l.memzone == [] {
      assert l == Lists(l.malloc, []);
      if Plain(l.malloc, zones, |zones|) {
        PlainRight(l.malloc, zones);
      } else if Distinct(zones) {
        var e := FaultShows(l.malloc, zones);
      }
    }
  }

  /** associate_heap_elements_and_memzones: every heap ends as Associated says. */
  method Associate(heaps: seq<Heap>, zones: seq<Zone>, ghost start: seq<Lists>)
    requires Separate(heaps, start)
    requires forall i :: 0 <= i < |heaps| ==> Lists(heaps[i].busyMalloc, heaps[i].busyMemzone) == start[i]
    requires forall e :: e in Elements(start) ==> e.memzone == None
    modifies heaps, Elements(start)
    ensures forall i :: 0 <= i < |heaps| ==> HeapState(heaps[i], start[i], zones, |zones|)
    ensures forall i :: 0 <= i < |heaps| ==> Associated(heaps[i], start[i], zones)
  {
    for k := 0 to |zones|
      invariant forall i :: 0 <= i < |heaps| ==> HeapState(heaps[i], start[i], zones, k)
    {
      ZoneInHeaps(heaps, zones, k, zones[k], start);
    }
    forall i | 0 <= i < |heaps| ensures Associated(heaps[i], start[i], zones) {
      StateAssociates(heaps[i], start[i], zones);
    }
  }
}

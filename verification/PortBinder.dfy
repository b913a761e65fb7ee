/** Binding the ports of a configuration (ConfigManager.bind_ports in
    configs/example/read_config.py).

    Every wire is listed twice, once from each of its ends.  One pass over the sorted
    list binds a listing when both ends are the next free index of their ports.
 */
module PortBinder {
  import opened Common
  import opened PyList
  import opened Text

  datatype Port = Port(owner: string, name: string)
  datatype End = End(port: Port, index: nat)
  datatype Conn = Conn(src: End, dst: End)

  function Rev(c: Conn): Conn { Conn(c.dst, c.src) }

  predicate Touches(c: Conn, e: End) { c.src == e || c.dst == e }

  // ---------------------------------------------------------------- the sort order

  // PortConnection.__cmp__: by object name, then port name, then index.
  predicate EndLe(e: End, f: End) {
    if e.port.owner != f.port.owner then StringLe(e.port.owner, f.port.owner)
    else if e.port.name != f.port.name then StringLe(e.port.name, f.port.name)
    else e.index <= f.index
  }

  predicate ConnLe(c: Conn, d: Conn) {
    if c.src != d.src then EndLe(c.src, d.src) else EndLe(c.dst, d.dst)
  }

  lemma {:induction false} EndOrder(e: End, f: End, g: End)
    ensures EndLe(e, f) || EndLe(f, e)
    ensures EndLe(e, f) && EndLe(f, e) ==> e == f
    ensures EndLe(e, f) && EndLe(f, g) ==> EndLe(e, g)
  {
    StringOrder(e.port.owner, f.port.owner, g.port.owner);
    StringOrder(e.port.name, f.port.name, g.port.name);
    StringOrder(f.port.owner, g.port.owner, e.port.owner);
    StringOrder(f.port.name, g.port.name, e.port.name);
  }

  lemma {:induction false} ConnOrder(c: Conn, d: Conn, e: Conn)
    ensures ConnLe(c, d) || ConnLe(d, c)
    ensures ConnLe(c, d) && ConnLe(d, c) ==> c == d
    ensures ConnLe(c, d) && ConnLe(d, e) ==> ConnLe(c, e)
  {
    EndOrder(c.src, d.src, e.src);
    EndOrder(c.dst, d.dst, e.dst);
    EndOrder(d.src, e.src, c.src);
  }

  // The same order in words: object names in dictionary order decide, among equal ones
  // the port names, then the index; a listing is placed by the end it starts from.
  ghost predicate EndBefore(e: End, f: End) {
    || (e.port.owner != f.port.owner && Precedes(e.port.owner, f.port.owner))
    || (e.port.owner == f.port.owner && e.port.name != f.port.name && Precedes(e.port.name, f.port.name))
    || (e.port == f.port && e.index <= f.index)
  }

  ghost predicate ListedBefore(c: Conn, d: Conn) {
    (c.src != d.src && EndBefore(c.src, d.src)) || (c.src == d.src && EndBefore(c.dst, d.dst))
  }

  lemma {:induction false} EndLeInWords(e: End, f: End)
    ensures EndLe(e, f) <==> EndBefore(e, f)
  {
    StringLeIsDictionary(e.port.owner, f.port.owner);
    StringLeIsDictionary(e.port.name, f.port.name);
  }

  /** Which listing the sort puts first. */
  lemma {:induction false} SortsByNames(c: Conn, d: Conn)
    ensures ConnLe(c, d) <==> ListedBefore(c, d)
    ensures var o, p := c.src.port.owner, d.src.port.owner; o != p ==> (ConnLe(c, d) <==> Precedes(o, p))
    ensures c.src.port.owner == d.src.port.owner && c.src.port.name != d.src.port.name ==>
              (ConnLe(c, d) <==> Precedes(c.src.port.name, d.src.port.name))
    ensures c.src.port == d.src.port && c.src.index < d.src.index ==> ConnLe(c, d) && !ConnLe(d, c)
  {
    EndLeInWords(c.src, d.src);
    EndLeInWords(c.dst, d.dst);
  }

  ghost predicate Sorted(s: seq<Conn>) {
    forall i, j :: 0 <= i < j < |s| ==> ConnLe(s[i], s[j])
  }

  // order is what sorted(s) returns.
  ghost predicate InOrder(order: seq<Conn>, s: seq<Conn>) {
    && multiset(order) == multiset(s)
    && forall i, j :: 0 <= i < j < |order| ==> ListedBefore(order[i], order[j])
  }

  function Insert(s: seq<Conn>, c: Conn): seq<Conn> {
    if s == [] || ConnLe(s[|s| - 1], c) then s + [c]
    else Insert(s[..|s| - 1], c) + [s[|s| - 1]]
  }

  function Sort(s: seq<Conn>): seq<Conn> {
    if s == [] then [] else Insert(Sort(s[..|s| - 1]), s[|s| - 1])
  }

  lemma {:induction false} InsertPermutes(s: seq<Conn>, c: Conn)
    ensures multiset(Insert(s, c)) == multiset(s) + multiset{c}
    ensures |Insert(s, c)| == |s| + 1
  {
    if s != [] && !ConnLe(s[|s| - 1], c) {
      InsertPermutes(s[..|s| - 1], c);
      assert s == s[..|s| - 1] + [s[|s| - 1]];
    }
  }

  lemma {:induction false} InsertSorts(s: seq<Conn>, c: Conn)
    requires Sorted(s)
    ensures Sorted(Insert(s, c))
  {
    if s == [] {
    } else if ConnLe(s[|s| - 1], c) {
      forall i | 0 <= i < |s| ensures ConnLe(s[i], c) {
        if i < |s| - 1 { ConnOrder(s[i], s[|s| - 1], c); }
      }
    } else {
      var t, l := s[..|s| - 1], s[|s| - 1];
      InsertSorts(t, c);
      InsertPermutes(t, c);
      var r := Insert(t, c);
      ConnOrder(c, l, l);
      forall i | 0 <= i < |r| ensures ConnLe(r[i], l) {
        assert r[i] in multiset(r);
        assert r[i] in t || r[i] == c;
      }
    }
  }

  lemma {:induction false} SortCorrect(s: seq<Conn>)
    ensures Sorted(Sort(s)) && multiset(Sort(s)) == multiset(s) && |Sort(s)| == |s|
  {
    if s != [] {
      SortCorrect(s[..|s| - 1]);
      InsertSorts(Sort(s[..|s| - 1]), s[|s| - 1]);
      InsertPermutes(Sort(s[..|s| - 1]), s[|s| - 1]);
      assert s == s[..|s| - 1] + [s[|s| - 1]];
    }
  }

  lemma {:induction false} SortedUnique(s: seq<Conn>, t: seq<Conn>)
    requires Sorted(s) && Sorted(t) && multiset(s) == multiset(t)
    ensures s == t
  {
    assert |s| == |multiset(s)| == |multiset(t)| == |t|;
    if s != [] {
      var n := |s| - 1;
      SameLast(s, t);
      FrontBag(s);
      FrontBag(t);
      SortedUnique(s[..n], t[..n]);
      assert s == s[..n] + [s[n]] && t == t[..n] + [t[n]];
    }
  }

  lemma {:induction false} FrontBag(s: seq<Conn>)
    requires s != []
    ensures multiset(s[..|s| - 1]) == multiset(s) - multiset{s[|s| - 1]}
  {
    assert s == s[..|s| - 1] + [s[|s| - 1]];
  }

  lemma {:induction false} SameLast(s: seq<Conn>, t: seq<Conn>)
    requires Sorted(s) && Sorted(t) && multiset(s) == multiset(t) && s != [] && t != []
    ensures s[|s| - 1] == t[|t| - 1]
  {
    var c, d := s[|s| - 1], t[|t| - 1];
    assert c in multiset(s) && d in multiset(t);
    LastIsLargest(s, d);
    LastIsLargest(t, c);
    ConnOrder(c, d, c);
  }

  lemma {:induction false} LastIsLargest(s: seq<Conn>, c: Conn)
    requires Sorted(s) && c in multiset(s)
    ensures ConnLe(c, s[|s| - 1])
  {
    var i :| 0 <= i < |s| && s[i] == c;
    ConnOrder(c, c, c);
  }

  /** There is exactly one such list, and it is what the sort returns. */
  lemma {:induction false} SortIsTheOrder(s: seq<Conn>, order: seq<Conn>)
    ensures InOrder(order, s) <==> order == Sort(s)
  {
    SortCorrect(s);
    var t := Sort(s);
    forall i, j | 0 <= i < j < |t| ensures ListedBefore(t[i], t[j]) { SortsByNames(t[i], t[j]); }
    if InOrder(order, s) {
      forall i, j | 0 <= i < j < |order| ensures ConnLe(order[i], order[j]) { SortsByNames(order[i], order[j]); }
      SortedUnique(order, t);
    }
  }

  // ---------------------------------------------------------------- connection lists

  // Each wire is listed in both orderings, no end is wired to itself, and each
  // indexed port has one peer.
  ghost predicate Symmetric(s: seq<Conn>) {
    && (forall c :: c in s ==> Rev(c) in s && c.src != c.dst)
    && (forall c, d :: c in s && d in s && c.src == d.src ==> c == d)
  }

  // The indices in use on a port are 0, 1, 2, ... without gaps.
  ghost predicate Dense(s: seq<Conn>) {
    forall c, i :: c in s && 0 <= i < c.src.index ==> HasEnd(s, End(c.src.port, i))
  }

  ghost predicate HasEnd(s: seq<Conn>, e: End) {
    exists c :: c in s && c.src == e
  }

  ghost predicate WellFormed(s: seq<Conn>) {
    Distinct(s) && Symmetric(s) && Dense(s)
  }

  // ---------------------------------------------------------------- the pass as a function

  // How many ends of the listed wires lie on port p.
  function Uses(b: seq<Conn>, p: Port): nat {
    if b == [] then 0
    else Uses(b[..|b| - 1], p) + (if b[|b| - 1].src.port == p then 1 else 0)
                               + (if b[|b| - 1].dst.port == p then 1 else 0)
  }

  predicate Bindable(b: seq<Conn>, c: Conn) {
    Uses(b, c.src.port) == c.src.index && Uses(b, c.dst.port) == c.dst.index
  }

  function Pass(order: seq<Conn>): seq<Conn> {
    if order == [] then []
    else
      var b := Pass(order[..|order| - 1]);
      if Bindable(b, order[|order| - 1]) then b + [order[|order| - 1]] else b
  }

  // A list of wires that can be bound one after the other: each end is the next
  // free index of its port.
  ghost predicate Legal(b: seq<Conn>) {
    forall k {:trigger b[k]} :: 0 <= k < |b| ==> Bindable(b[..k], b[k])
  }

  ghost predicate Bound(b: seq<Conn>, c: Conn) { c in b || Rev(c) in b }

  lemma {:induction false} PassStep(order: seq<Conn>, k: nat)
    requires k < |order|
    ensures Pass(order[..k + 1]) ==
            if Bindable(Pass(order[..k]), order[k]) then Pass(order[..k]) + [order[k]] else Pass(order[..k])
  {
    assert order[..k + 1][..k] == order[..k];
  }

  lemma {:induction false} PassLegal(order: seq<Conn>)
    ensures Legal(Pass(order))
    ensures forall c :: c in Pass(order) ==> c in order
  {
    if order != [] {
      var s, c := order[..|order| - 1], order[|order| - 1];
      PassLegal(s);
      var b := Pass(s);
      forall k | 0 <= k < |Pass(order)| ensures Bindable(Pass(order)[..k], Pass(order)[k]) {
        assert Pass(order)[..k] == b[..k];
      }
    }
  }

  lemma {:induction false} UsesGrows(b: seq<Conn>, k: nat, p: Port)
    requires k <= |b|
    ensures Uses(b[..k], p) <= Uses(b, p)
    decreases |b|
  {
    if k == |b| {
      assert b[..k] == b;
    } else {
      UsesGrows(b[..|b| - 1], k, p);
      assert b[..|b| - 1][..k] == b[..k];
    }
  }

  // Bound ends lie below the counters ...
  lemma {:induction false} BoundBelow(b: seq<Conn>, k: nat)
    requires Legal(b) && k < |b|
    ensures b[k].src.index < Uses(b, b[k].src.port)
    ensures b[k].dst.index < Uses(b, b[k].dst.port)
  {
    assert Bindable(b[..k], b[k]);
    assert b[..k + 1][..k] == b[..k];
    UsesGrows(b, k + 1, b[k].src.port);
    UsesGrows(b, k + 1, b[k].dst.port);
  }

  // ... and every index below a counter is bound.
  lemma {:induction false} BelowBound(b: seq<Conn>, e: End) returns (k: nat)
    requires Legal(b) && e.index < Uses(b, e.port)
    requires forall c :: c in b ==> c.src != c.dst
    ensures k < |b| && Touches(b[k], e)
  {
    var s, c := b[..|b| - 1], b[|b| - 1];
    assert Bindable(b[..|b| - 1], b[|b| - 1]);
    if e.index < Uses(s, e.port) {
      LegalTake(b, |b| - 1);
      k := BelowBound(s, e);
    } else {
      k := |b| - 1;
      assert c in b;
    }
  }

  // No end is bound twice.
  lemma {:induction false} EndBoundOnce(b: seq<Conn>, i: nat, j: nat, e: End)
    requires Legal(b) && i < j < |b| && Touches(b[i], e)
    ensures !Touches(b[j], e)
  {
    assert Bindable(b[..j], b[j]) && Bindable(b[..i], b[i]);
    var s := b[..j];
    assert s[..i + 1][..i] == b[..i] && s[i] == b[i];
    UsesGrows(s, i + 1, e.port);
  }

  // When an end is bound, the lower indices of its port have been.
  ghost predicate InTurn(b: seq<Conn>) {
    forall j, e, i :: 0 <= j < |b| && Touches(b[j], e) && 0 <= i < e.index ==> TouchedBefore(b, j, End(e.port, i))
  }

  ghost predicate TouchedBefore(b: seq<Conn>, j: nat, e: End)
    requires j <= |b|
  {
    exists k :: 0 <= k < j && Touches(b[k], e)
  }

  lemma {:induction false} LegalInTurn(b: seq<Conn>)
    requires Legal(b) && forall c :: c in b ==> c.src != c.dst
    ensures InTurn(b)
  {
    forall j, e, i | 0 <= j < |b| && Touches(b[j], e) && 0 <= i < e.index
      ensures TouchedBefore(b, j, End(e.port, i))
    {
      assert Bindable(b[..j], b[j]);
      LegalTake(b, j);
      var k := BelowBound(b[..j], End(e.port, i));
    }
  }

  // Only listed wires, none twice.
  lemma {:induction false} PassOnce(order: seq<Conn>)
    ensures forall c :: c in Pass(order) ==> c in order
    ensures Distinct(Pass(order))
    ensures forall c :: c in Pass(order) && c.src != c.dst ==> Rev(c) !in Pass(order)
  {
    PassLegal(order);
    var b := Pass(order);
    forall i, j | 0 <= i < j < |b| ensures b[i] != b[j] && b[i] != Rev(b[j]) {
      EndBoundOnce(b, i, j, b[i].src);
    }
  }

  /** Whatever the list, the pass binds wires in a legal order (on each port the
      indices 0, 1, 2, ... in turn), binds only listed wires, and never binds a wire
      twice, in the same or in opposite directions. */
  lemma {:induction false} PassSound(order: seq<Conn>)
    ensures Legal(Pass(order))
    ensures (forall c :: c in order ==> c.src != c.dst) ==> InTurn(Pass(order))
    ensures forall c :: c in Pass(order) ==> c in order
    ensures Distinct(Pass(order))
    ensures forall c :: c in Pass(order) && c.src != c.dst ==> Rev(c) !in Pass(order)
  {
    PassLegal(order);
    PassOnce(order);
    if forall c :: c in order ==> c.src != c.dst { LegalInTurn(Pass(order)); }
  }

  // ---------------------------------------------------------------- the half-count test

  function Reversed(b: seq<Conn>): seq<Conn> {
    if b == [] then [] else Reversed(b[..|b| - 1]) + [Rev(b[|b| - 1])]
  }

  lemma {:induction false} ReversedMembers(b: seq<Conn>)
    ensures |Reversed(b)| == |b|
    ensures forall i :: 0 <= i < |b| ==> Reversed(b)[i] == Rev(b[i])
  {
    if b != [] { ReversedMembers(b[..|b| - 1]); }
  }

  lemma {:induction false} ReversedFacts(b: seq<Conn>)
    requires Distinct(b)
    ensures |Reversed(b)| == |b| && Distinct(Reversed(b))
    ensures forall c :: c in Reversed(b) <==> Rev(c) in b
  {
    var r := Reversed(b);
    ReversedMembers(b);
    forall i, j | 0 <= i < j < |r| ensures r[i] != r[j] {
      assert b[i] != b[j];
    }
    forall c | Rev(c) in b ensures c in r {
      var i :| 0 <= i < |b| && b[i] == Rev(c);
      assert r[i] == c;
    }
  }

  function Members(b: seq<Conn>): set<Conn> { set c | c in b }

  lemma {:induction false} DistinctSize(b: seq<Conn>)
    requires Distinct(b)
    ensures |Members(b)| == |b|
  {
    if b != [] {
      var s, c := b[..|b| - 1], b[|b| - 1];
      DistinctSize(s);
      assert c !in s;
      assert Members(b) == Members(s) + {c};
    }
  }

  lemma {:induction false} SubsetSameSize(a: set<Conn>, b: set<Conn>)
    requires a <= b && |a| == |b|
    ensures a == b
  {
    assert b == a + (b - a);
    assert |b| == |a| + |b - a|;
  }

  lemma {:induction false} UnionSizes(a: set<Conn>, b: set<Conn>, c: set<Conn>)
    requires a !! b && a + b <= c
    ensures |a| + |b| <= |c|
    ensures |a| + |b| == |c| <==> a + b == c
  {
    assert |a + b| == |a| + |b|;
    assert c == (a + b) + (c - (a + b));
    if |a| + |b| == |c| { SubsetSameSize(a + b, c); }
  }

  // The wires bound in b, in both of their listings.
  lemma {:induction false} BoundListings(order: seq<Conn>, b: seq<Conn>)
    requires Symmetric(order) && Distinct(b)
    requires forall c :: c in b ==> c in order && Rev(c) !in b
    ensures var m, r := Members(b), Members(Reversed(b));
            && m !! r && |m| == |r| == |b| && m + r <= Members(order)
            && (forall c :: c in m + r <==> Bound(b, c))
  {
    ReversedFacts(b);
    DistinctSize(b);
    DistinctSize(Reversed(b));
    forall c | c in Reversed(b) ensures c in order {
      assert Rev(c) in order && Rev(Rev(c)) == c;
    }
  }

  /** The half-count test passes exactly when every listed wire was bound, which then
      happened exactly once (PassSound). */
  lemma {:induction false} HalfCountExact(order: seq<Conn>)
    requires Distinct(order) && Symmetric(order)
    ensures |Pass(order)| * 2 == |order| <==> forall c :: c in order ==> Bound(Pass(order), c)
  {
    PassOnce(order);
    var b := Pass(order);
    BoundListings(order, b);
    DistinctSize(order);
    UnionSizes(Members(b), Members(Reversed(b)), Members(order));
  }

  // ---------------------------------------------------------------- when the pass succeeds

  // A choice of one of the two listings of each wire, by position in the list, in
  // which the wires of each port come in index order.
  ghost predicate Schedule(order: seq<Conn>, picks: set<nat>) {
    && (forall i :: 0 <= i < |order| ==> PicksOneListing(order, picks, i))
    && (forall i, j, e, f :: i in picks && j in picks && i < |order| && j < |order| ==>
          IndexOrder(order, i, j, e, f))
  }

  ghost predicate IndexOrder(order: seq<Conn>, i: nat, j: nat, e: End, f: End)
    requires i < |order| && j < |order|
  {
    Touches(order[i], e) && Touches(order[j], f) && e.port == f.port && e.index < f.index ==> i < j
  }

  ghost predicate PicksOneListing(order: seq<Conn>, picks: set<nat>, i: nat)
    requires i < |order|
  {
    (i in picks) != PicksReverse(order, picks, i)
  }

  ghost predicate PicksReverse(order: seq<Conn>, picks: set<nat>, i: nat)
    requires i < |order|
  {
    exists j :: 0 <= j < |order| && j in picks && order[j] == Rev(order[i])
  }

  // The wires at lower indices of an end's port are picked earlier.
  lemma {:induction false} PickedBefore(order: seq<Conn>, picks: set<nat>, k: nat, e: End, i: nat) returns (j: nat)
    requires WellFormed(order) && Schedule(order, picks)
    requires k < |order| && k in picks && Touches(order[k], e) && i < e.index
    ensures j < k && j in picks && Touches(order[j], End(e.port, i))
  {
    assert order[k] in order;
    var d := Peer(order, if order[k].src == e then order[k] else Rev(order[k]), i);
    var m :| 0 <= m < |order| && order[m] == d;
    if m in picks {
      j := m;
    } else {
      assert PicksOneListing(order, picks, m);
      j :| 0 <= j < |order| && j in picks && order[j] == Rev(order[m]);
    }
    assert IndexOrder(order, j, k, End(e.port, i), e);
  }

  lemma {:induction false} Peer(order: seq<Conn>, c: Conn, i: nat) returns (d: Conn)
    requires WellFormed(order) && c in order && i < c.src.index
    ensures d in order && d.src == End(c.src.port, i)
  {
    assert HasEnd(order, End(c.src.port, i));
    d :| d in order && d.src == End(c.src.port, i);
  }

  lemma {:induction false} CounterReached(order: seq<Conn>, picks: set<nat>, k: nat, e: End)
    requires WellFormed(order) && Schedule(order, picks)
    requires k < |order| && k in picks && Touches(order[k], e)
    requires forall j :: 0 <= j < k && j in picks ==> Bound(Pass(order[..k]), order[j])
    ensures Uses(Pass(order[..k]), e.port) >= e.index
  {
    if e.index > 0 {
      var j := PickedBefore(order, picks, k, e, e.index - 1);
      BoundMeansReached(Pass(order[..k]), order[..k], order[j], End(e.port, e.index - 1));
    }
  }

  lemma {:induction false} BoundMeansReached(b: seq<Conn>, s: seq<Conn>, c: Conn, e: End)
    requires b == Pass(s) && Bound(b, c) && Touches(c, e)
    ensures e.index < Uses(b, e.port)
  {
    PassLegal(s);
    var d := if c in b then c else Rev(c);
    var m :| 0 <= m < |b| && b[m] == d;
    BoundBelow(b, m);
  }

  lemma {:induction false} ReachedMeansBound(order: seq<Conn>, k: nat, e: End)
    requires Symmetric(order) && k < |order| && Touches(order[k], e)
    requires e.index < Uses(Pass(order[..k]), e.port)
    ensures Bound(Pass(order[..k]), order[k])
  {
    var b := Pass(order[..k]);
    PassLegal(order[..k]);
    assert forall c :: c in b ==> c in order;
    var m := BelowBound(b, e);
    assert Rev(b[m]) in order && Rev(order[k]) in order;
  }

  ghost predicate PicksBound(order: seq<Conn>, picks: set<nat>, k: nat)
    requires k <= |order|
  {
    forall j :: 0 <= j < k && j in picks ==> Bound(Pass(order[..k]), order[j])
  }

  lemma {:induction false} PickIsBound(order: seq<Conn>, picks: set<nat>, i: nat)
    requires WellFormed(order) && Schedule(order, picks) && i < |order| && i in picks && PicksBound(order, picks, i)
    ensures Bound(Pass(order[..i + 1]), order[i])
  {
    var b := Pass(order[..i]);
    PassStep(order, i);
    if !Bound(b, order[i]) {
      CounterReached(order, picks, i, order[i].src);
      CounterReached(order, picks, i, order[i].dst);
      if order[i].src.index < Uses(b, order[i].src.port) { ReachedMeansBound(order, i, order[i].src); }
      if order[i].dst.index < Uses(b, order[i].dst.port) { ReachedMeansBound(order, i, order[i].dst); }
    }
  }

  lemma {:induction false} StaysBound(order: seq<Conn>, k: nat, c: Conn)
    requires k < |order| && Bound(Pass(order[..k]), c)
    ensures Bound(Pass(order[..k + 1]), c)
  {
    PassStep(order, k);
  }

  lemma {:induction false} ScheduleBinds(order: seq<Conn>, picks: set<nat>, k: nat)
    requires WellFormed(order) && Schedule(order, picks) && k <= |order|
    ensures PicksBound(order, picks, k)
  {
    if k > 0 {
      ScheduleBinds(order, picks, k - 1);
      if k - 1 in picks { PickIsBound(order, picks, k - 1); }
      PicksBoundStep(order, picks, k - 1);
    }
  }

  lemma {:induction false} PicksBoundStep(order: seq<Conn>, picks: set<nat>, k: nat)
    requires k < |order| && PicksBound(order, picks, k) && (k in picks ==> Bound(Pass(order[..k + 1]), order[k]))
    ensures PicksBound(order, picks, k + 1)
  {
    forall j | 0 <= j < k + 1 && j in picks ensures Bound(Pass(order[..k + 1]), order[j]) {
      if j < k { StaysBound(order, k, order[j]); }
    }
  }

  lemma {:induction false} ScheduleSuffices(order: seq<Conn>, picks: set<nat>)
    requires WellFormed(order) && Schedule(order, picks)
    ensures forall c :: c in order ==> Bound(Pass(order), c)
  {
    ScheduleBinds(order, picks, |order|);
    assert order[..|order|] == order;
    forall c | c in order ensures Bound(Pass(order), c) {
      var i :| 0 <= i < |order| && order[i] == c;
      if i !in picks {
        assert PicksOneListing(order, picks, i) && PicksReverse(order, picks, i);
        var j :| 0 <= j < |order| && j in picks && order[j] == Rev(order[i]);
        assert Bound(Pass(order), order[j]);
      }
    }
  }

  // The positions at which the pass binds.
  ghost function Chosen(order: seq<Conn>): set<nat> {
    set k: nat | k < |order| && Bindable(Pass(order[..k]), order[k])
  }

  // The wires at the picked ones of the first n positions, in the order of the list.
  ghost function Picked(order: seq<Conn>, picks: set<nat>, n: nat): seq<Conn>
    requires n <= |order|
  {
    if n == 0 then [] else Picked(order, picks, n - 1) + if n - 1 in picks then [order[n - 1]] else []
  }

  // A pick and everything picked before it, in the whole list of picks.
  lemma {:induction false} PickedAt(order: seq<Conn>, picks: set<nat>, i: nat, n: nat)
    requires i < n <= |order| && i in picks
    ensures var m, b := |Picked(order, picks, i)|, Picked(order, picks, n);
            m < |b| && b[m] == order[i] && b[..m] == Picked(order, picks, i)
  {
    if i < n - 1 {
      PickedAt(order, picks, i, n - 1);
      var m, p := |Picked(order, picks, i)|, Picked(order, picks, n - 1);
      assert Picked(order, picks, n)[..m] == p[..m];
    }
  }

  lemma {:induction false} PickedGrows(order: seq<Conn>, picks: set<nat>, i: nat, j: nat)
    requires i < j <= |order| && i in picks
    ensures |Picked(order, picks, i)| < |Picked(order, picks, j)|
  {
    PickedAt(order, picks, i, j);
  }

  lemma {:induction false} PickedFrom(order: seq<Conn>, picks: set<nat>, n: nat, c: Conn) returns (i: nat)
    requires n <= |order| && c in Picked(order, picks, n)
    ensures i < n && i in picks && order[i] == c
  {
    if c in Picked(order, picks, n - 1) { i := PickedFrom(order, picks, n - 1, c); } else { i := n - 1; }
  }

  // A single pass that binds what it picks, in the order of the list, and misses nothing.
  ghost predicate Works(order: seq<Conn>, picks: set<nat>) {
    && Legal(Picked(order, picks, |order|))
    && forall c :: c in order ==> Bound(Picked(order, picks, |order|), c)
  }

  lemma {:induction false} PicksOne(order: seq<Conn>, picks: set<nat>, i: nat)
    requires WellFormed(order) && Works(order, picks) && i < |order|
    ensures PicksOneListing(order, picks, i)
  {
    var b, c, n := Picked(order, picks, |order|), order[i], |order|;
    assert c in order && Bound(b, c);
    if i in picks {
      if PicksReverse(order, picks, i) {
        var j :| 0 <= j < n && j in picks && order[j] == Rev(c);
        if i < j { NotBoth(order, picks, i, j); } else if j < i { NotBoth(order, picks, j, i); }
      }
    } else if c in b {
      var j := PickedFrom(order, picks, n, c);
    } else {
      var j := PickedFrom(order, picks, n, Rev(c));
    }
  }

  lemma {:induction false} NotBoth(order: seq<Conn>, picks: set<nat>, i: nat, j: nat)
    requires Works(order, picks) && i < j < |order| && i in picks && j in picks
    ensures order[j] != Rev(order[i])
  {
    PickedAt(order, picks, i, |order|);
    PickedAt(order, picks, j, |order|);
    PickedGrows(order, picks, i, j);
    EndBoundOnce(Picked(order, picks, |order|), |Picked(order, picks, i)|, |Picked(order, picks, j)|, order[i].src);
  }

  lemma {:induction false} PicksInOrder(order: seq<Conn>, picks: set<nat>, i: nat, j: nat, e: End, f: End)
    requires Works(order, picks) && i in picks && j in picks && i < |order| && j < |order|
    ensures IndexOrder(order, i, j, e, f)
  {
    var b, n := Picked(order, picks, |order|), |order|;
    PickedAt(order, picks, i, n);
    var k := |Picked(order, picks, i)|;
    assert Bindable(b[..k], b[k]);
    if Touches(order[i], e) && Touches(order[j], f) && e.port == f.port && e.index < f.index && j < i {
      PickedAt(order, picks, j, n);
      PickedGrows(order, picks, j, i);
      LegalTake(b, k);
      BoundBelow(b[..k], |Picked(order, picks, j)|);
    }
  }

  lemma {:induction false} LegalTake(b: seq<Conn>, k: nat)
    requires Legal(b) && k <= |b|
    ensures Legal(b[..k])
  {
    forall m | 0 <= m < |b[..k]| ensures Bindable(b[..k][..m], b[..k][m]) {
      assert b[..k][..m] == b[..m] && Bindable(b[..m], b[m]);
    }
  }

  /** Any choice of positions that works is a schedule, greedy or not. */
  lemma {:induction false} WorkingChoiceIsSchedule(order: seq<Conn>, picks: set<nat>)
    requires WellFormed(order) && Works(order, picks)
    ensures Schedule(order, picks)
  {
    forall i | 0 <= i < |order| ensures PicksOneListing(order, picks, i) { PicksOne(order, picks, i); }
    forall i, j, e, f | i in picks && j in picks && i < |order| && j < |order| ensures IndexOrder(order, i, j, e, f) {
      PicksInOrder(order, picks, i, j, e, f);
    }
  }

  lemma {:induction false} ChosenIsPass(order: seq<Conn>, n: nat)
    requires n <= |order|
    ensures Picked(order, Chosen(order), n) == Pass(order[..n])
  {
    if n > 0 {
      ChosenIsPass(order, n - 1);
      PassStep(order, n - 1);
    }
  }

  /** The greedy pass is the best any single pass over the list can do: it binds every
      wire exactly when some choice of positions binds every wire, and exactly when one
      listing of each wire can be picked so that, on each port, the picks come in index
      order. */
  lemma {:induction false} PassSucceedsExactlyWhenSchedulable(order: seq<Conn>)
    requires WellFormed(order)
    ensures |Pass(order)| * 2 == |order| <==> exists picks :: Schedule(order, picks)
    ensures |Pass(order)| * 2 == |order| <==> exists picks :: Works(order, picks)
  {
    HalfCountExact(order);
    if |Pass(order)| * 2 == |order| {
      ChosenIsPass(order, |order|);
      assert order[..|order|] == order;
      PassLegal(order);
      assert Works(order, Chosen(order));
    }
    if picks :| Works(order, picks) {
      WorkingChoiceIsSchedule(order, picks);
    }
    if picks :| Schedule(order, picks) {
      ScheduleSuffices(order, picks);
    }
  }

  lemma {:induction false} SortKeepsWellFormed(s: seq<Conn>)
    requires WellFormed(s)
    ensures WellFormed(Sort(s)) && |Sort(s)| == |s|
    ensures forall c :: c in Sort(s) <==> c in s
  {
    var t := Sort(s);
    SortCorrect(s);
    assert forall c :: c in t <==> c in multiset(t);
    assert forall c :: c in s <==> c in multiset(s);
    DistinctSize(s);
    assert Members(t) == Members(s);
    SizeDistinct(t);
    forall c, i | c in t && 0 <= i < c.src.index ensures HasEnd(t, End(c.src.port, i)) {
      assert HasEnd(s, End(c.src.port, i));
    }
  }

  lemma {:induction false} SizeDistinct(b: seq<Conn>)
    requires |Members(b)| == |b|
    ensures Distinct(b)
  {
    if b != [] {
      var s, c := b[..|b| - 1], b[|b| - 1];
      assert Members(b) == Members(s) + {c};
      MembersAtMost(s);
      assert |Members(s)| == |s| && c !in s;
      SizeDistinct(s);
    }
  }

  lemma {:induction false} MembersAtMost(b: seq<Conn>)
    ensures |Members(b)| <= |b|
  {
    if b != [] {
      MembersAtMost(b[..|b| - 1]);
      assert Members(b) == Members(b[..|b| - 1]) + {b[|b| - 1]};
    }
  }

  // ---------------------------------------------------------------- star-shaped wiring

  // Port p carries a single wire.
  ghost predicate Single(s: seq<Conn>, p: Port) {
    forall c :: c in s && c.src.port == p ==> c.src.index == 0
  }

  ghost predicate StarWired(s: seq<Conn>) {
    forall c :: c in s ==> Single(s, c.src.port) || Single(s, c.dst.port)
  }

  // Of the two listings of a wire, the one that starts at the port with several wires.
  ghost predicate FromHub(s: seq<Conn>, c: Conn) {
    if Single(s, c.src.port) && Single(s, c.dst.port) then !EndLe(c.dst, c.src)
    else Single(s, c.dst.port)
  }

  // An end of a port with several wires is where its hub listing starts.
  lemma {:induction false} HubEnd(s: seq<Conn>, c: Conn, e: End)
    requires Symmetric(s) && c in s && FromHub(s, c) && Touches(c, e) && !Single(s, e.port)
    ensures c.src == e
  {
  }

  lemma {:induction false} NotSingle(s: seq<Conn>, c: Conn, e: End)
    requires Symmetric(s) && c in s && Touches(c, e) && e.index > 0
    ensures !Single(s, e.port)
  {
    var d := if c.src == e then c else Rev(c);
    assert d in s && d.src == e;
  }

  lemma {:induction false} StarSchedule(order: seq<Conn>) returns (picks: set<nat>)
    requires WellFormed(order) && Sorted(order) && StarWired(order)
    ensures Schedule(order, picks)
  {
    picks := set i: nat | i < |order| && FromHub(order, order[i]);
    forall i | 0 <= i < |order| ensures PicksOneListing(order, picks, i) {
      assert order[i] in order && Rev(order[i]) in order;
      EndOrder(order[i].src, order[i].dst, order[i].src);
      var j :| 0 <= j < |order| && order[j] == Rev(order[i]);
      assert FromHub(order, Rev(order[i])) ==> j in picks;
    }
    forall i, j, e, f | i in picks && j in picks && i < |order| && j < |order|
      ensures IndexOrder(order, i, j, e, f)
    {
      if Touches(order[i], e) && Touches(order[j], f) && e.port == f.port && e.index < f.index {
        NotSingle(order, order[j], f);
        HubEnd(order, order[i], e);
        HubEnd(order, order[j], f);
        if j < i { assert ConnLe(order[j], order[i]); }
      }
    }
  }

  /** If every wire has an end on a port that carries no other wire, the pass over the
      sorted list binds every wire and the half-count test does not raise. */
  lemma {:induction false} StarWiringBinds(s: seq<Conn>)
    requires WellFormed(s) && StarWired(s)
    ensures |Pass(Sort(s))| * 2 == |s|
  {
    var order := Sort(s);
    SortKeepsWellFormed(s);
    SortCorrect(s);
    assert StarWired(order) by {
      forall c | c in order ensures Single(order, c.src.port) || Single(order, c.dst.port) {
        assert c in s;
      }
    }
    var picks := StarSchedule(order);
    PassSucceedsExactlyWhenSchedulable(order);
  }

  // ---------------------------------------------------------------- the comment is too strong

  datatype Names = Names(p: Port, q: Port, r: Port, s: Port) {
    predicate Alphabetical() {
      p.owner == "p" && q.owner == "q" && r.owner == "r" && s.owner == "s"
    }
  }

  // p[0] - q[1], q[0] - r[1], r[0] - s[0], in sorted order
  predicate IsChain(c: seq<Conn>, n: Names) {
    && |c| == 6
    && c[0] == Conn(End(n.p, 0), End(n.q, 1)) && c[1] == Conn(End(n.q, 0), End(n.r, 1)) && c[2] == Rev(c[0])
    && c[3] == Conn(End(n.r, 0), End(n.s, 0)) && c[4] == Rev(c[1]) && c[5] == Rev(c[3])
  }

  predicate Different(n: Names) {
    n.p != n.q && n.p != n.r && n.p != n.s && n.q != n.r && n.q != n.s && n.r != n.s
  }

  lemma {:induction false} ChainSymmetric(c: seq<Conn>, n: Names)
    requires Different(n) && IsChain(c, n)
    ensures Distinct(c) && Symmetric(c)
  {
    assert Rev(c[0]) == c[2] && Rev(c[1]) == c[4] && Rev(c[3]) == c[5];
    assert c[0] in c && c[1] in c && c[2] in c && c[3] in c && c[4] in c && c[5] in c;
  }

  lemma {:induction false} ChainDense(c: seq<Conn>, n: Names)
    requires IsChain(c, n)
    ensures Dense(c)
  {
    assert c[1] in c && c[3] in c;
    forall d, i | d in c && 0 <= i < d.src.index ensures HasEnd(c, End(d.src.port, i)) {
      assert i == 0 && (d == c[2] || d == c[4]);
      if d == c[2] { assert c[1].src == End(d.src.port, i); } else { assert c[3].src == End(d.src.port, i); }
    }
  }

  lemma {:induction false} UsesTwo(c: Conn, d: Conn, p: Port)
    ensures Uses([c], p) == (if c.src.port == p then 1 else 0) + (if c.dst.port == p then 1 else 0)
    ensures Uses([c, d], p) == Uses([c], p) + (if d.src.port == p then 1 else 0) + (if d.dst.port == p then 1 else 0)
  {
    assert [] + [c] == [c] && [c] + [d] == [c, d];
  }

  lemma {:induction false} PassSkips(order: seq<Conn>, k: nat, b: seq<Conn>)
    requires k < |order| && Pass(order[..k]) == b && !Bindable(b, order[k])
    ensures Pass(order[..k + 1]) == b
  {
    PassStep(order, k);
  }

  lemma {:induction false} PassBinds(order: seq<Conn>, k: nat, b: seq<Conn>)
    requires k < |order| && Pass(order[..k]) == b && Bindable(b, order[k])
    ensures Pass(order[..k + 1]) == b + [order[k]]
  {
    PassStep(order, k);
  }

  lemma {:induction false} ChainBindable(c: seq<Conn>, n: Names)
    requires Different(n) && IsChain(c, n)
    ensures Bindable([c[3]], c[4]) && !Bindable([c[3], c[4]], c[5]) && Bindable([c[3], c[4]], c[0])
  {
    UsesTwo(c[3], c[4], n.p);
    UsesTwo(c[3], c[4], n.q);
    UsesTwo(c[3], c[4], n.r);
    UsesTwo(c[3], c[4], n.s);
  }

  // Only r[0] - s[0] and then r[1] - q[0] are ever bound.
  lemma {:induction false} ChainPass(c: seq<Conn>, n: Names)
    requires Different(n) && IsChain(c, n)
    ensures |Pass(c)| == 2
  {
    var none: seq<Conn> := [];
    assert c[..0] == none;
    PassSkips(c, 0, none);
    PassSkips(c, 1, none);
    PassSkips(c, 2, none);
    PassBinds(c, 3, none);
    assert none + [c[3]] == [c[3]];
    ChainBindable(c, n);
    PassBinds(c, 4, [c[3]]);
    assert [c[3]] + [c[4]] == [c[3], c[4]];
    PassSkips(c, 5, [c[3], c[4]]);
    assert c[..6] == c;
  }

  lemma {:induction false} ChainHasLegalOrder(c: seq<Conn>, n: Names) returns (b: seq<Conn>)
    requires Different(n) && IsChain(c, n)
    ensures Legal(b) && forall d :: d in c ==> Bound(b, d)
  {
    b := [c[3], c[4], c[0]];
    ChainBindable(c, n);
    assert b[..0] == [] && b[..1] == [c[3]] && b[..2] == [c[3], c[4]];
    assert b[0] in b && b[1] in b && b[2] in b;
    assert Rev(c[1]) == c[4] && Rev(c[2]) == c[0] && Rev(c[5]) == c[3];
  }

  /** That sorting always makes one listing of each wire bindable, as the comment on the
      pass claims, does not hold for every list: these three wires can all be bound one
      after the other, but the sorted pass binds only two. */
  lemma {:induction false} SortedPassCanMissAnOrder(c: seq<Conn>, n: Names)
    requires n.Alphabetical() && IsChain(c, n)
    ensures WellFormed(c) && Sorted(c)
    ensures exists b :: Legal(b) && forall d :: d in c ==> Bound(b, d)
    ensures |Pass(c)| * 2 != |c| && !exists picks :: Schedule(c, picks)
  {
    ChainSymmetric(c, n);
    ChainDense(c, n);
    ChainPass(c, n);
    var b := ChainHasLegalOrder(c, n);
    PassSucceedsExactlyWhenSchedulable(c);
  }

  // ---------------------------------------------------------------- gathering the list

  datatype PortPeers = PortPeers(port: Port, peers: seq<End>)

  // gather_port_connections: the k-th peer listed for a port is wired to its index k.
  function Gather(ports: seq<PortPeers>): seq<Conn> {
    if ports == [] then []
    else
      var l := ports[|ports| - 1];
      Gather(ports[..|ports| - 1]) + seq(|l.peers|, i requires 0 <= i < |l.peers| => Conn(End(l.port, i), l.peers[i]))
  }

  predicate Lists(p: PortPeers, c: Conn) {
    c.src.port == p.port && c.src.index < |p.peers| && c.dst == p.peers[c.src.index]
  }

  ghost predicate PortsDistinct(ports: seq<PortPeers>) {
    forall i, j :: 0 <= i < j < |ports| ==> ports[i].port != ports[j].port
  }

  lemma {:induction false} GatherMembers(ports: seq<PortPeers>, c: Conn)
    ensures c in Gather(ports) <==> exists k :: 0 <= k < |ports| && Lists(ports[k], c)
  {
    if ports != [] {
      var s, l := ports[..|ports| - 1], ports[|ports| - 1];
      GatherMembers(s, c);
      var t := seq(|l.peers|, i requires 0 <= i < |l.peers| => Conn(End(l.port, i), l.peers[i]));
      if Lists(l, c) { assert t[c.src.index] == c; }
      assert c in t <==> Lists(l, c);
      if k :| 0 <= k < |s| && Lists(s[k], c) { assert Lists(ports[k], c); }
      if k :| 0 <= k < |ports| && Lists(ports[k], c) { assert k < |s| ==> Lists(s[k], c); }
    }
  }

  lemma {:induction false} GatherDistinct(ports: seq<PortPeers>)
    requires PortsDistinct(ports)
    ensures Distinct(Gather(ports))
  {
    if ports != [] {
      var s, l := ports[..|ports| - 1], ports[|ports| - 1];
      GatherDistinct(s);
      forall c | c in Gather(s) ensures c.src.port != l.port {
        GatherMembers(s, c);
      }
    }
  }

  /** A gathered list needs only its peers to agree: if every listed wire is listed
      from both ends, the list meets everything the pass relies on. */
  lemma {:induction false} GatherWellFormed(ports: seq<PortPeers>)
    requires PortsDistinct(ports)
    requires forall c :: c in Gather(ports) ==> Rev(c) in Gather(ports) && c.src != c.dst
    ensures WellFormed(Gather(ports))
  {
    var g := Gather(ports);
    GatherDistinct(ports);
    forall c, d | c in g && d in g && c.src == d.src ensures c == d {
      GatherMembers(ports, c);
      GatherMembers(ports, d);
    }
    forall c, i | c in g && 0 <= i < c.src.index ensures HasEnd(g, End(c.src.port, i)) {
      GatherMembers(ports, c);
      var k :| 0 <= k < |ports| && Lists(ports[k], c);
      var d := Conn(End(c.src.port, i), ports[k].peers[i]);
      GatherMembers(ports, d);
      assert Lists(ports[k], d);
    }
  }

  // ---------------------------------------------------------------- the program

  // Each port's counter is the number of wires bound to it so far.
  ghost predicate Counters(next: map<Port, nat>, made: seq<Conn>, ports: set<Port>) {
    next.Keys == ports && forall p :: p in ports ==> next[p] == Uses(made, p)
  }

  // The loop over the sorted list, with its counters.
  method OnePass(order: seq<Conn>, ports: set<Port>) returns (made: seq<Conn>)
    requires forall c :: c in order ==> c.src.port in ports && c.dst.port in ports
    ensures made == Pass(order)
  {
    var next: map<Port, nat> := map p | p in ports :: 0;
    made := [];
    for i := 0 to |order|
      invariant made == Pass(order[..i])
      invariant Counters(next, made, ports)
    {
      var c := order[i];
      assert c in order;
      PassStep(order, i);
      if next[c.src.port] == c.src.index && next[c.dst.port] == c.dst.index {
        made := made + [c];
        next := next[c.src.port := next[c.src.port] + 1];
        next := next[c.dst.port := next[c.dst.port] + 1];
      }
    }
    assert order[..|order|] == order;
  }

  /** bind_ports.  The caller must list every wire in both orderings.  None stands for
      the exception "Port bindings can't be ordered". */
  method BindPorts(connections: seq<Conn>) returns (r: Option<seq<Conn>>)
    requires forall c :: c in connections ==> Rev(c) in connections
    ensures InOrder(Sort(connections), connections)
    ensures forall order :: InOrder(order, connections) ==>
              r == if |Pass(order)| * 2 == |connections| then Some(Pass(order)) else None
    ensures r.Some? ==> Legal(r.value) && forall c :: c in r.value ==> c in connections
    ensures WellFormed(connections) ==>
              && (r.Some? <==> exists picks :: Schedule(Sort(connections), picks))
              && (r.Some? ==> InTurn(r.value) && forall c :: c in connections ==> Bound(r.value, c))
              && (StarWired(connections) ==> r.Some?)
  {
    var ports := PortsOf(connections);
    var order := Sort(connections);
    SortMembers(connections);
    assert forall c :: c in order ==> Rev(c) in connections;
    var made := OnePass(order, ports);
    r := if |made| * 2 == |connections| then Some(made) else None;
    BindsInOrder(connections, r);
    if WellFormed(connections) {
      BindsWellFormed(connections);
    }
  }

  // The keys of port_bind_indices.
  method PortsOf(connections: seq<Conn>) returns (ports: set<Port>)
    ensures forall c :: c in connections ==> c.src.port in ports
  {
    ports := {};
    for i := 0 to |connections|
      invariant forall j :: 0 <= j < i ==> connections[j].src.port in ports
    {
      ports := ports + {connections[i].src.port};
    }
  }

  lemma {:induction false} SortMembers(s: seq<Conn>)
    ensures forall c :: c in Sort(s) <==> c in s
  {
    SortCorrect(s);
    forall c ensures c in Sort(s) <==> c in s {
      assert c in Sort(s) <==> c in multiset(Sort(s));
      assert c in s <==> c in multiset(s);
    }
  }

  lemma {:induction false} BindsInOrder(s: seq<Conn>, r: Option<seq<Conn>>)
    requires r == if |Pass(Sort(s))| * 2 == |s| then Some(Pass(Sort(s))) else None
    ensures InOrder(Sort(s), s)
    ensures forall order :: InOrder(order, s) ==> r == if |Pass(order)| * 2 == |s| then Some(Pass(order)) else None
    ensures r.Some? ==> Legal(r.value) && forall c :: c in r.value ==> c in s
  {
    SortIsTheOrder(s, Sort(s));
    PassLegal(Sort(s));
    SortMembers(s);
    forall order | InOrder(order, s) ensures order == Sort(s) { SortIsTheOrder(s, order); }
  }

  lemma {:induction false} BindsWellFormed(s: seq<Conn>)
    requires WellFormed(s)
    ensures |Pass(Sort(s))| * 2 == |s| <==> exists picks :: Schedule(Sort(s), picks)
    ensures |Pass(Sort(s))| * 2 == |s| ==> forall c :: c in s ==> Bound(Pass(Sort(s)), c)
    ensures InTurn(Pass(Sort(s)))
    ensures StarWired(s) ==> |Pass(Sort(s))| * 2 == |s|
  {
    SortKeepsWellFormed(s);
    HalfCountExact(Sort(s));
    PassSound(Sort(s));
    PassSucceedsExactlyWhenSchedulable(Sort(s));
    if StarWired(s) { StarWiringBinds(s); }
  }
}

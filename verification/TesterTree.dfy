/** The cache and tester tree of configs/example/memtest.py: numtesters and the
    recursive builder make_cache_level with its global counters.

    A subsystem is named by its level and its index on that level.  Caches and testers
    are named by their subsystem and a number.
 */
module TesterTree {
  import opened Common
  import opened PyList
  import opened Text
  import B = Bits

  datatype Spec = Spec(caches: seq<int>, testers: seq<int>)

  // The checks made on the command line.
  predicate Valid(sp: Spec) {
    && |sp.caches| >= 1
    && |sp.caches| == |sp.testers| - 1
    && sp.testers[|sp.testers| - 1] != 0
    && (forall i :: 0 <= i < |sp.testers| ==> sp.testers[i] >= 0)
    && (forall i :: 0 <= i < |sp.caches| ==> sp.caches[i] >= 1)
  }

  function Depth(sp: Spec): nat { |sp.caches| }

  datatype Sub = Sub(level: nat, index: nat)
  datatype Cache = TreeCache(sub: Sub, k: nat) | TesterCache(sub: Sub, k: nat)

  datatype Port =
    | CpuSide(cache: Cache)
    | MemSide(cache: Cache)
    | TesterPort(sub: Sub, k: nat)
    | XbarMaster(sub: Sub)
    | XbarSlave(sub: Sub)

  datatype Wire = Wire(a: Port, b: Port)

  // next_subsys_index, the subsystems created so far, the port assignments so far
  datatype State = State(next: seq<nat>, subs: seq<Sub>, wires: seq<Wire>)

  // ---------------------------------------------------------------- the builder as a function

  function NumTesters(sp: Spec, level: nat): nat
    requires Valid(sp) && level <= Depth(sp)
  {
    sp.testers[Depth(sp) - level]
  }

  function NumCaches(sp: Spec, level: nat): (n: nat)
    requires Valid(sp) && 0 < level <= Depth(sp)
    ensures n >= 1
  {
    sp.caches[Depth(sp) - level]
  }

  function Connect(st: State, a: Port, b: Port): State { st.(wires := st.wires + [Wire(a, b)]) }

  // the testers of one subsystem, each with its own cache
  function ConnectTesters(st: State, sub: Sub, n: nat): (r: State)
    ensures r.next == st.next && r.subs == st.subs
  {
    if n == 0 then st
    else
      var t := ConnectTesters(st, sub, n - 1);
      Connect(Connect(t, TesterPort(sub, n - 1), CpuSide(TesterCache(sub, n - 1))),
              MemSide(TesterCache(sub, n - 1)), XbarSlave(sub))
  }

  // the testers at the top, directly on the crossbar
  function ConnectTop(st: State, sub: Sub, n: nat): (r: State)
    ensures r.next == st.next && r.subs == st.subs
  {
    if n == 0 then st else Connect(ConnectTop(st, sub, n - 1), TesterPort(sub, n - 1), XbarSlave(sub))
  }

  function Begin(st: State, level: nat): State
    requires level < |st.next|
  {
    State(st.next[level := st.next[level] + 1], st.subs + [Sub(level, st.next[level])], st.wires)
  }

  function Attach(st: State, sub: Sub, below: Option<Cache>): State {
    if below.None? then st else Connect(st, XbarMaster(sub), CpuSide(below.value))
  }

  // make_cache_level; `below` is next_cache.  None: "No next-level cache at top level".
  function Level(sp: Spec, level: nat, below: Option<Cache>, st: State): (r: Option<State>)
    requires Valid(sp) && level <= Depth(sp) && |st.next| == Depth(sp) + 1
    ensures r.Some? ==> |r.value.next| == Depth(sp) + 1
    decreases level, 0, 0
  {
    var sub, n := Sub(level, st.next[level]), NumTesters(sp, level);
    var st1 := Begin(st, level);
    if level != 0 then
      var st2 := Kids(sp, level, sub, NumCaches(sp, level), Attach(st1, sub, below));
      if st2.None? then None else Some(ConnectTesters(st2.value, sub, n))
    else if below.None? then None
    else if n > 1 then Some(ConnectTop(Attach(st1, sub, below), sub, n))
    else Some(Connect(st1, TesterPort(sub, 0), CpuSide(below.value)))
  }

  // the first n tree caches of a subsystem, each with the subtree above it
  function Kids(sp: Spec, level: nat, sub: Sub, n: nat, st: State): (r: Option<State>)
    requires Valid(sp) && 0 < level <= Depth(sp) && |st.next| == Depth(sp) + 1
    ensures r.Some? ==> |r.value.next| == Depth(sp) + 1
    decreases level - 1, 1, n
  {
    if n == 0 then Some(st)
    else
      var t := Kids(sp, level, sub, n - 1, st);
      if t.None? then None
      else
        var c := TreeCache(sub, n - 1);
        Level(sp, level - 1, Some(c), Connect(t.value, MemSide(c), XbarSlave(sub)))
  }

  function Start(sp: Spec): State { State(seq(Depth(sp) + 1, i => 0), [], []) }

  function Build(sp: Spec): Option<State>
    requires Valid(sp)
  {
    Level(sp, Depth(sp), None, Start(sp))
  }

  // ---------------------------------------------------------------- counting testers

  // testers of one subtree rooted at `level`
  function SubtreeTesters(sp: Spec, level: nat): nat
    requires Valid(sp) && level <= Depth(sp)
  {
    if level == 0 then NumTesters(sp, 0)
    else NumTesters(sp, level) + NumCaches(sp, level) * SubtreeTesters(sp, level - 1)
  }

  // the tester ports connected by the first n assignments
  function Testers(wires: seq<Wire>, n: nat): nat
    requires n <= |wires|
  {
    if n == 0 then 0 else Testers(wires, n - 1) + if wires[n - 1].a.TesterPort? then 1 else 0
  }

  function TesterCount(wires: seq<Wire>): nat { Testers(wires, |wires|) }

  lemma {:induction false} TestersPrefix(wires: seq<Wire>, w: Wire, n: nat)
    requires n <= |wires|
    ensures Testers(wires + [w], n) == Testers(wires, n)
  {
    if n > 0 {
      TestersPrefix(wires, w, n - 1);
      assert (wires + [w])[n - 1] == wires[n - 1];
    }
  }

  lemma {:induction false} ConnectCount(st: State, a: Port, b: Port)
    ensures TesterCount(Connect(st, a, b).wires) == TesterCount(st.wires) + if a.TesterPort? then 1 else 0
  {
    TestersPrefix(st.wires, Wire(a, b), |st.wires|);
  }

  lemma {:induction false} TestersCount(st: State, sub: Sub, n: nat)
    ensures TesterCount(ConnectTesters(st, sub, n).wires) == TesterCount(st.wires) + n
  {
    if n > 0 {
      var t, c := ConnectTesters(st, sub, n - 1), TesterCache(sub, n - 1);
      TestersCount(st, sub, n - 1);
      ConnectCount(t, TesterPort(sub, n - 1), CpuSide(c));
      ConnectCount(Connect(t, TesterPort(sub, n - 1), CpuSide(c)), MemSide(c), XbarSlave(sub));
    }
  }

  lemma {:induction false} TopCount(st: State, sub: Sub, n: nat)
    ensures TesterCount(ConnectTop(st, sub, n).wires) == TesterCount(st.wires) + n
  {
    if n > 0 {
      TopCount(st, sub, n - 1);
      ConnectCount(ConnectTop(st, sub, n - 1), TesterPort(sub, n - 1), XbarSlave(sub));
    }
  }

  lemma {:induction false} AttachCount(st: State, sub: Sub, below: Option<Cache>)
    ensures TesterCount(Attach(st, sub, below).wires) == TesterCount(st.wires)
  {
    if below.Some? { ConnectCount(st, XbarMaster(sub), CpuSide(below.value)); }
  }

  // The top of a branch: its testers behind one crossbar, or a single one.
  lemma {:induction false} TopLevelCounts(sp: Spec, below: Cache, st: State)
    requires Valid(sp) && |st.next| == Depth(sp) + 1
    ensures var r := Level(sp, 0, Some(below), st);
            r.Some? && TesterCount(r.value.wires) == TesterCount(st.wires) + NumTesters(sp, 0)
  {
    var sub, n, st1 := Sub(0, st.next[0]), NumTesters(sp, 0), Begin(st, 0);
    if n > 1 {
      AttachCount(st1, sub, Some(below));
      TopCount(Attach(st1, sub, Some(below)), sub, n);
    } else {
      ConnectCount(st1, TesterPort(sub, 0), CpuSide(below));
    }
  }

  ghost predicate LevelsOk(sp: Spec, subs: seq<Sub>) { forall s :: s in subs ==> s.level <= Depth(sp) }

  // A subtree succeeds whenever it has a cache below it or is not at the top, and
  // connects exactly its share of testers.
  lemma {:induction false} LevelCounts(sp: Spec, level: nat, below: Option<Cache>, st: State)
    requires Valid(sp) && level <= Depth(sp) && |st.next| == Depth(sp) + 1 && (level == 0 ==> below.Some?)
    ensures var r := Level(sp, level, below, st);
            r.Some? && TesterCount(r.value.wires) == TesterCount(st.wires) + SubtreeTesters(sp, level)
    decreases level, 0, 0
  {
    var sub, n, st1 := Sub(level, st.next[level]), NumTesters(sp, level), Begin(st, level);
    if level != 0 {
      var st2 := Attach(st1, sub, below);
      AttachCount(st1, sub, below);
      KidsCount(sp, level, sub, NumCaches(sp, level), st2);
      TestersCount(Kids(sp, level, sub, NumCaches(sp, level), st2).value, sub, n);
    } else {
      TopLevelCounts(sp, below.value, st);
    }
  }

  lemma {:induction false} KidsCount(sp: Spec, level: nat, sub: Sub, n: nat, st: State)
    requires Valid(sp) && 0 < level <= Depth(sp) && |st.next| == Depth(sp) + 1
    ensures var r := Kids(sp, level, sub, n, st);
            r.Some? && TesterCount(r.value.wires) == TesterCount(st.wires) + n * SubtreeTesters(sp, level - 1)
    decreases level - 1, 1, n
  {
    if n > 0 {
      KidsCount(sp, level, sub, n - 1, st);
      var t, c := Kids(sp, level, sub, n - 1, st).value, TreeCache(sub, n - 1);
      ConnectCount(t, MemSide(c), XbarSlave(sub));
      LevelCounts(sp, level - 1, Some(c), Connect(t, MemSide(c), XbarSlave(sub)));
      MulStep(n, SubtreeTesters(sp, level - 1));
    }
  }

  lemma {:induction false} MulStep(n: nat, m: nat)
    requires n > 0
    ensures n * m == (n - 1) * m + m
  {
  }

  // numtesters: the multiplier of each level and the sum
  function Multiplier(sp: Spec, i: nat): nat
    requires Valid(sp) && i <= Depth(sp)
  {
    if i == 0 then 1 else Multiplier(sp, i - 1) * sp.caches[i - 1]
  }

  function Total(sp: Spec, i: nat): nat
    requires Valid(sp) && i <= Depth(sp) + 1
  {
    if i == 0 then 0 else Total(sp, i - 1) + sp.testers[i - 1] * Multiplier(sp, i - 1)
  }

  lemma {:induction false} Horner(m: nat, t: nat, c: nat, rest: nat)
    ensures m * (t + c * rest) == t * m + (m * c) * rest
  {
    assert m * (c * rest) == (m * c) * rest;
  }

  lemma {:induction false} TotalIsNested(sp: Spec, i: nat)
    requires Valid(sp) && i <= Depth(sp)
    ensures Total(sp, i) + Multiplier(sp, i) * SubtreeTesters(sp, Depth(sp) - i) == SubtreeTesters(sp, Depth(sp))
  {
    if i > 0 {
      var level := Depth(sp) - i + 1;
      TotalIsNested(sp, i - 1);
      Horner(Multiplier(sp, i - 1), NumTesters(sp, level), NumCaches(sp, level), SubtreeTesters(sp, level - 1));
    }
  }

  lemma {:induction false} TotalIsSubtree(sp: Spec)
    requires Valid(sp)
    ensures Total(sp, Depth(sp) + 1) == SubtreeTesters(sp, Depth(sp))
  {
    TotalIsNested(sp, Depth(sp));
    assert SubtreeTesters(sp, 0) == sp.testers[Depth(sp)];
  }

  /** For every specification that passes the checks the build succeeds, and the number
      of testers connected is the closed-form count used for the size check. */
  lemma {:induction false} TestersCreatedAsCounted(sp: Spec)
    requires Valid(sp)
    ensures Build(sp).Some? && TesterCount(Build(sp).value.wires) == Total(sp, Depth(sp) + 1)
  {
    LevelCounts(sp, Depth(sp), None, Start(sp));
    TotalIsSubtree(sp);
  }

  // ---------------------------------------------------------------- names are unique

  // No subsystem twice, and all indices in use lie below the counters.
  ghost predicate Numbered(st: State) {
    && (forall i, j :: 0 <= i < j < |st.subs| ==> st.subs[i] != st.subs[j])
    && (forall s :: s in st.subs ==> s.level < |st.next| && s.index < st.next[s.level])
  }

  // 'l%dsubsys%d'
  function SubsysName(s: Sub): string { "l" + Decimal(s.level) + "subsys" + Decimal(s.index) }

  function NameParts(s: Sub): seq<string> { ["l" + Decimal(s.level), "ub", "y", Decimal(s.index)] }

  lemma {:induction false} NameSplits(s: Sub)
    ensures Split(SubsysName(s), 's') == NameParts(s)
  {
    var p := NameParts(s);
    DecimalDigits(s.level);
    DecimalDigits(s.index);
    assert 's' !in p[0] && 's' !in p[1] && 's' !in p[2] && 's' !in p[3];
    assert p[2..] == [p[2], p[3]] && p[1..][1..] == p[2..] && p[1..][1..][1..] == [p[3]];
    assert Join(p[2..], 's') == "y" + "s" + p[3];
    assert Join(p[1..], 's') == "ub" + "s" + Join(p[2..], 's');
    assert SubsysName(s) == p[0] + "s" + Join(p[1..], 's');
    SplitJoin(p, 's');
  }

  /** The attribute under which a subsystem is stored determines it. */
  lemma {:induction false} NameInjective(s: Sub, t: Sub)
    requires SubsysName(s) == SubsysName(t)
    ensures s == t
  {
    NameSplits(s);
    NameSplits(t);
    assert NameParts(s)[0][1..] == Decimal(s.level) && NameParts(t)[0][1..] == Decimal(t.level);
    assert NameParts(s)[3] == NameParts(t)[3];
    ParseDecimal(s.level);
    ParseDecimal(t.level);
    ParseDecimal(s.index);
    ParseDecimal(t.index);
  }

  ghost predicate NamesDiffer(subs: seq<Sub>) {
    forall i, j :: 0 <= i < j < |subs| ==> SubsysName(subs[i]) != SubsysName(subs[j])
  }

  lemma {:induction false} NumberedNames(st: State)
    requires Numbered(st)
    ensures NamesDiffer(st.subs)
  {
    forall i, j | 0 <= i < j < |st.subs| ensures SubsysName(st.subs[i]) != SubsysName(st.subs[j]) {
      if SubsysName(st.subs[i]) == SubsysName(st.subs[j]) { NameInjective(st.subs[i], st.subs[j]); }
    }
  }

  lemma {:induction false} LevelNumbered(sp: Spec, level: nat, below: Option<Cache>, st: State)
    requires Valid(sp) && level <= Depth(sp) && |st.next| == Depth(sp) + 1 && Numbered(st)
    ensures var r := Level(sp, level, below, st); r.Some? ==> Numbered(r.value)
    decreases level, 0, 0
  {
    if level != 0 {
      var sub := Sub(level, st.next[level]);
      KidsNumbered(sp, level, sub, NumCaches(sp, level), Attach(Begin(st, level), sub, below));
    }
  }

  lemma {:induction false} KidsNumbered(sp: Spec, level: nat, sub: Sub, n: nat, st: State)
    requires Valid(sp) && 0 < level <= Depth(sp) && |st.next| == Depth(sp) + 1 && Numbered(st)
    ensures var r := Kids(sp, level, sub, n, st); r.Some? ==> Numbered(r.value)
    decreases level - 1, 1, n
  {
    if n > 0 {
      KidsNumbered(sp, level, sub, n - 1, st);
      var t, c := Kids(sp, level, sub, n - 1, st), TreeCache(sub, n - 1);
      if t.Some? { LevelNumbered(sp, level - 1, Some(c), Connect(t.value, MemSide(c), XbarSlave(sub))); }
    }
  }

  // ---------------------------------------------------------------- every port is connected once

  // the ports that take a single connection
  predicate IsSingle(p: Port) { p.CpuSide? || p.MemSide? || p.TesterPort? }

  function Bit(b: bool): nat { if b then 1 else 0 }

  // how often a port occurs among the connections
  function Ends(wires: seq<Wire>, p: Port): nat {
    if wires == [] then 0
    else Ends(wires[..|wires| - 1], p) + Bit(wires[|wires| - 1].a == p) + Bit(wires[|wires| - 1].b == p)
  }

  predicate OwnsTree(sp: Spec, s: Sub, n: nat, p: Port) {
    (p.CpuSide? || p.MemSide?) && p.cache.TreeCache? && p.cache.sub == s && p.cache.k < n
  }

  predicate OwnsTester(s: Sub, n: nat, p: Port) {
    || ((p.CpuSide? || p.MemSide?) && p.cache.TesterCache? && p.cache.sub == s && p.cache.k < n)
    || OwnsTop(s, n, p)
  }

  predicate OwnsTop(s: Sub, n: nat, p: Port) { p.TesterPort? && p.sub == s && p.k < n }

  // p is a port of one of the caches or testers created for subsystem s
  predicate Owns(sp: Spec, s: Sub, p: Port)
    requires Valid(sp) && s.level <= Depth(sp)
  {
    if s.level == 0 then OwnsTop(s, NumTesters(sp, 0), p)
    else OwnsTree(sp, s, NumCaches(sp, s.level), p) || OwnsTester(s, NumTesters(sp, s.level), p)
  }

  function Owners(sp: Spec, subs: seq<Sub>, p: Port): nat
    requires Valid(sp) && LevelsOk(sp, subs)
  {
    if subs == [] then 0
    else Owners(sp, subs[..|subs| - 1], p) + Bit(Owns(sp, subs[|subs| - 1], p))
  }

  lemma {:induction false} ConnectEnds(st: State, a: Port, b: Port, p: Port)
    ensures Ends(Connect(st, a, b).wires, p) == Ends(st.wires, p) + Bit(a == p) + Bit(b == p)
  {
    var w := Connect(st, a, b).wires;
    assert w[..|w| - 1] == st.wires;
  }

  lemma {:induction false} TesterStep(sub: Sub, n: nat, p: Port)
    requires n > 0
    ensures Bit(OwnsTester(sub, n, p)) == Bit(OwnsTester(sub, n - 1, p)) + Bit(TesterPort(sub, n - 1) == p)
            + Bit(CpuSide(TesterCache(sub, n - 1)) == p) + Bit(MemSide(TesterCache(sub, n - 1)) == p)
  {
  }

  lemma {:induction false} TestersEnds(st: State, sub: Sub, n: nat, p: Port)
    requires IsSingle(p)
    ensures Ends(ConnectTesters(st, sub, n).wires, p) == Ends(st.wires, p) + Bit(OwnsTester(sub, n, p))
  {
    if n > 0 {
      TestersEnds(st, sub, n - 1, p);
      TesterStep(sub, n, p);
    }
  }

  lemma {:induction false} TopEnds(st: State, sub: Sub, n: nat, p: Port)
    requires IsSingle(p)
    ensures Ends(ConnectTop(st, sub, n).wires, p) == Ends(st.wires, p) + Bit(OwnsTop(sub, n, p))
  {
    if n > 0 {
      TopEnds(st, sub, n - 1, p);
      ConnectEnds(ConnectTop(st, sub, n - 1), TesterPort(sub, n - 1), XbarSlave(sub), p);
    }
  }

  predicate Below(below: Option<Cache>, p: Port) { below.Some? && p == CpuSide(below.value) }

  lemma {:induction false} AttachEnds(st: State, sub: Sub, below: Option<Cache>, p: Port)
    requires IsSingle(p)
    ensures Ends(Attach(st, sub, below).wires, p) == Ends(st.wires, p) + Bit(Below(below, p))
  {
    if below.Some? { ConnectEnds(st, XbarMaster(sub), CpuSide(below.value), p); }
  }

  lemma {:induction false} BeginOwners(sp: Spec, level: nat, st: State, p: Port)
    requires Valid(sp) && level <= Depth(sp) && level < |st.next| && LevelsOk(sp, st.subs)
    ensures LevelsOk(sp, Begin(st, level).subs)
    ensures Owners(sp, Begin(st, level).subs, p)
            == Owners(sp, st.subs, p) + Bit(Owns(sp, Sub(level, st.next[level]), p))
  {
    var st1 := Begin(st, level);
    assert st1.subs[..|st1.subs| - 1] == st.subs;
  }

  // Building a subtree connects, once each, the ports of what it creates and the upper
  // port of the cache below it.
  lemma {:induction false} LevelEnds(sp: Spec, level: nat, below: Option<Cache>, st: State, p: Port)
    requires Valid(sp) && level <= Depth(sp) && |st.next| == Depth(sp) + 1 && LevelsOk(sp, st.subs)
    requires (level == 0 ==> below.Some?) && IsSingle(p)
    ensures var r := Level(sp, level, below, st);
            && r.Some? && LevelsOk(sp, r.value.subs)
            && Ends(r.value.wires, p) + Owners(sp, st.subs, p)
               == Ends(st.wires, p) + Owners(sp, r.value.subs, p) + Bit(Below(below, p))
    decreases level, 0, 0
  {
    var sub, st1 := Sub(level, st.next[level]), Begin(st, level);
    BeginOwners(sp, level, st, p);
    if level != 0 {
      var st2, n := Attach(st1, sub, below), NumCaches(sp, level);
      AttachEnds(st1, sub, below, p);
      KidsEnds(sp, level, sub, n, st2, p);
      LevelStep(sp, level, below, st);
      OwnTestersEnds(sp, Kids(sp, level, sub, n, st2).value, sub, p);
    } else {
      TopLevelEnds(sp, st1, sub, below.value, p);
    }
  }

  lemma {:induction false} OwnTestersEnds(sp: Spec, st: State, sub: Sub, p: Port)
    requires Valid(sp) && 0 < sub.level <= Depth(sp) && IsSingle(p)
    ensures Ends(ConnectTesters(st, sub, NumTesters(sp, sub.level)).wires, p)
            + Bit(OwnsTree(sp, sub, NumCaches(sp, sub.level), p)) == Ends(st.wires, p) + Bit(Owns(sp, sub, p))
  {
    TestersEnds(st, sub, NumTesters(sp, sub.level), p);
  }

  lemma {:induction false} TopLevelEnds(sp: Spec, st: State, sub: Sub, below: Cache, p: Port)
    requires Valid(sp) && sub.level == 0 && IsSingle(p)
    ensures var n := NumTesters(sp, 0);
            var r := if n > 1 then ConnectTop(Attach(st, sub, Some(below)), sub, n)
                     else Connect(st, TesterPort(sub, 0), CpuSide(below));
            Ends(r.wires, p) == Ends(st.wires, p) + Bit(Owns(sp, sub, p)) + Bit(p == CpuSide(below))
  {
    var n := NumTesters(sp, 0);
    if n > 1 {
      AttachEnds(st, sub, Some(below), p);
      TopEnds(Attach(st, sub, Some(below)), sub, n, p);
    } else {
      ConnectEnds(st, TesterPort(sub, 0), CpuSide(below), p);
    }
  }

  lemma {:induction false} KidsEnds(sp: Spec, level: nat, sub: Sub, n: nat, st: State, p: Port)
    requires Valid(sp) && 0 < level <= Depth(sp) && |st.next| == Depth(sp) + 1 && LevelsOk(sp, st.subs) && IsSingle(p)
    ensures var r := Kids(sp, level, sub, n, st);
            && r.Some? && LevelsOk(sp, r.value.subs)
            && Ends(r.value.wires, p) + Owners(sp, st.subs, p)
               == Ends(st.wires, p) + Owners(sp, r.value.subs, p) + Bit(OwnsTree(sp, sub, n, p))
    decreases level - 1, 1, n
  {
    if n > 0 {
      TreeStep(sp, sub, n, p);
      KidsEnds(sp, level, sub, n - 1, st, p);
      var t, c := Kids(sp, level, sub, n - 1, st).value, TreeCache(sub, n - 1);
      ConnectEnds(t, MemSide(c), XbarSlave(sub), p);
      LevelEnds(sp, level - 1, Some(c), Connect(t, MemSide(c), XbarSlave(sub)), p);
      KidsStep(sp, level, sub, n, st);
    }
  }

  lemma {:induction false} LevelStep(sp: Spec, level: nat, below: Option<Cache>, st: State)
    requires Valid(sp) && 0 < level <= Depth(sp) && |st.next| == Depth(sp) + 1
    ensures var sub := Sub(level, st.next[level]);
            var kids := Kids(sp, level, sub, NumCaches(sp, level), Attach(Begin(st, level), sub, below));
            Level(sp, level, below, st) ==
            if kids.None? then None else Some(ConnectTesters(kids.value, sub, NumTesters(sp, level)))
  {
  }

  lemma {:induction false} KidsStep(sp: Spec, level: nat, sub: Sub, n: nat, st: State)
    requires Valid(sp) && 0 < level <= Depth(sp) && |st.next| == Depth(sp) + 1
    requires n > 0 && Kids(sp, level, sub, n - 1, st).Some?
    ensures var t, c := Kids(sp, level, sub, n - 1, st).value, TreeCache(sub, n - 1);
            Kids(sp, level, sub, n, st) == Level(sp, level - 1, Some(c), Connect(t, MemSide(c), XbarSlave(sub)))
  {
  }

  lemma {:induction false} TreeStep(sp: Spec, sub: Sub, n: nat, p: Port)
    requires n > 0
    ensures var c := TreeCache(sub, n - 1);
            Bit(OwnsTree(sp, sub, n, p)) == Bit(OwnsTree(sp, sub, n - 1, p)) + Bit(MemSide(c) == p) + Bit(CpuSide(c) == p)
  {
  }

  ghost predicate Owned(sp: Spec, subs: seq<Sub>, p: Port)
    requires Valid(sp) && LevelsOk(sp, subs)
  {
    exists s :: s in subs && Owns(sp, s, p)
  }

  lemma {:induction false} OwnedStep(sp: Spec, subs: seq<Sub>, p: Port)
    requires Valid(sp) && LevelsOk(sp, subs) && subs != [] && subs[|subs| - 1] !in subs[..|subs| - 1]
    ensures var t, l := subs[..|subs| - 1], subs[|subs| - 1];
            Bit(Owned(sp, subs, p)) == Bit(Owned(sp, t, p)) + Bit(Owns(sp, l, p))
  {
    var t, l := subs[..|subs| - 1], subs[|subs| - 1];
    assert forall s :: s in subs <==> s in t || s == l;
    if s :| s in t && Owns(sp, s, p) { assert s in subs && !Owns(sp, l, p); }
  }

  lemma {:induction false} OneOwner(sp: Spec, subs: seq<Sub>, p: Port)
    requires Valid(sp) && LevelsOk(sp, subs)
    requires forall i, j :: 0 <= i < j < |subs| ==> subs[i] != subs[j]
    ensures Owners(sp, subs, p) == Bit(Owned(sp, subs, p))
  {
    if subs != [] {
      OneOwner(sp, subs[..|subs| - 1], p);
      OwnedStep(sp, subs, p);
    }
  }

  /** In the system built from any valid specification no two subsystems share a name,
      and each port of each cache and tester created is connected exactly once. */
  lemma {:induction false} EveryPortOnce(sp: Spec, p: Port)
    requires Valid(sp) && IsSingle(p)
    ensures var r := Build(sp);
            && r.Some? && Numbered(r.value) && NamesDiffer(r.value.subs) && LevelsOk(sp, r.value.subs)
            && Ends(r.value.wires, p) == Bit(Owned(sp, r.value.subs, p))
  {
    LevelEnds(sp, Depth(sp), None, Start(sp), p);
    LevelNumbered(sp, Depth(sp), None, Start(sp));
    NumberedNames(Build(sp).value);
    OneOwner(sp, Build(sp).value.subs, p);
  }

  // ---------------------------------------------------------------- what is connected to what

  // How many subsystems a level has, and the cache that a subsystem stands on: the caches
  // of the level below are used one after the other.
  function Population(sp: Spec, level: nat): nat
    requires Valid(sp) && level <= Depth(sp)
    decreases Depth(sp) - level
  {
    if level == Depth(sp) then 1 else Population(sp, level + 1) * NumCaches(sp, level + 1)
  }

  function ParentCache(sp: Spec, s: Sub): Cache
    requires Valid(sp) && s.level < Depth(sp)
  {
    var n := NumCaches(sp, s.level + 1);
    TreeCache(Sub(s.level + 1, s.index / n), s.index % n)
  }

  // The subsystem that makes the connection.
  function Maker(w: Wire): Sub {
    match w.a
    case CpuSide(c) => c.sub
    case MemSide(c) => c.sub
    case TesterPort(s, _) => s
    case XbarMaster(s) => s
    case XbarSlave(s) => s
  }

  // What a tester is connected to: the cache of its own number, and at the top the
  // crossbar or, if it is alone, the cache below.
  function TesterPeer(sp: Spec, s: Sub, k: nat): Port
    requires Valid(sp) && s.level <= Depth(sp)
  {
    if s.level > 0 then CpuSide(TesterCache(s, k))
    else if NumTesters(sp, 0) > 1 then XbarSlave(s)
    else CpuSide(ParentCache(sp, s))
  }

  // The connections of a whole system: every cache's memory side is on the crossbar of its
  // own subsystem, every crossbar but the lowest is on the cache it stands on.
  predicate Planned(sp: Spec, w: Wire)
    requires Valid(sp)
  {
    var s := Maker(w);
    && s.level <= Depth(sp)
    && match w.a
       case TesterPort(_, k) => k < NumTesters(sp, s.level) && w.b == TesterPeer(sp, s, k)
       case MemSide(c) =>
         && s.level > 0 && c.k < (if c.TreeCache? then NumCaches(sp, s.level) else NumTesters(sp, s.level))
         && w.b == XbarSlave(s)
       case XbarMaster(_) =>
         s.level < Depth(sp) && (s.level > 0 || NumTesters(sp, 0) > 1) && w.b == CpuSide(ParentCache(sp, s))
       case _ => false
  }

  // All subtrees begun so far from levels up to `level` are finished.
  ghost predicate Aligned(sp: Spec, next: seq<nat>, level: nat)
    requires Valid(sp)
  {
    && level <= Depth(sp) && |next| == Depth(sp) + 1
    && forall l :: 0 < l <= level ==> next[l - 1] == next[l] * NumCaches(sp, l)
  }

  // The counters only moved, by the given amount on `level` and not above it.
  ghost predicate Counted(was: seq<nat>, now: seq<nat>, level: nat, n: nat) {
    && |was| == |now| && level < |was| && now[level] == was[level] + n
    && (forall l :: 0 <= l < |was| ==> was[l] <= now[l])
    && (forall l :: level < l < |was| ==> was[l] == now[l])
  }

  lemma {:induction false} LevelNext(sp: Spec, level: nat, below: Option<Cache>, st: State)
    requires Valid(sp) && Aligned(sp, st.next, level) && (level == 0 ==> below.Some?)
    ensures var r := Level(sp, level, below, st);
            r.Some? && Aligned(sp, r.value.next, level) && Counted(st.next, r.value.next, level, 1)
    decreases level, 0, 0
  {
    if level != 0 {
      var sub, n := Sub(level, st.next[level]), NumCaches(sp, level);
      var st2 := Attach(Begin(st, level), sub, below);
      KidsNext(sp, level, sub, n, st2);
      LevelStep(sp, level, below, st);
      MulStep(st.next[level] + 1, n);
    }
  }

  lemma {:induction false} KidsNext(sp: Spec, level: nat, sub: Sub, n: nat, st: State)
    requires Valid(sp) && 0 < level <= Depth(sp) && Aligned(sp, st.next, level - 1)
    ensures var r := Kids(sp, level, sub, n, st);
            r.Some? && Aligned(sp, r.value.next, level - 1) && Counted(st.next, r.value.next, level - 1, n)
    decreases level - 1, 1, n
  {
    if n > 0 {
      KidsNext(sp, level, sub, n - 1, st);
      var t, c := Kids(sp, level, sub, n - 1, st).value, TreeCache(sub, n - 1);
      LevelNext(sp, level - 1, Some(c), Connect(t, MemSide(c), XbarSlave(sub)));
      KidsStep(sp, level, sub, n, st);
    }
  }

  predicate IsTesterWire(sub: Sub, n: nat, w: Wire) {
    || (w.a.TesterPort? && w.a.sub == sub && w.a.k < n && w.b == CpuSide(TesterCache(sub, w.a.k)))
    || (w.a.MemSide? && w.a.cache.TesterCache? && w.a.cache.sub == sub && w.a.cache.k < n && w.b == XbarSlave(sub))
  }

  lemma {:induction false} TesterWires(st: State, sub: Sub, n: nat, w: Wire)
    ensures w in ConnectTesters(st, sub, n).wires <==> w in st.wires || IsTesterWire(sub, n, w)
  {
    if n > 0 { TesterWires(st, sub, n - 1, w); }
  }

  predicate IsTopWire(sub: Sub, n: nat, w: Wire) {
    w.a.TesterPort? && w.a.sub == sub && w.a.k < n && w.b == XbarSlave(sub)
  }

  lemma {:induction false} TopWires(st: State, sub: Sub, n: nat, w: Wire)
    ensures w in ConnectTop(st, sub, n).wires <==> w in st.wires || IsTopWire(sub, n, w)
  {
    if n > 0 { TopWires(st, sub, n - 1, w); }
  }

  predicate IsTreeWire(sub: Sub, n: nat, w: Wire) {
    w.a.MemSide? && w.a.cache.TreeCache? && w.a.cache.sub == sub && w.a.cache.k < n && w.b == XbarSlave(sub)
  }

  // The cache handed to the call that builds subsystem s.
  function BelowOf(sp: Spec, s: Sub): Option<Cache>
    requires Valid(sp) && s.level <= Depth(sp)
  {
    if s.level < Depth(sp) then Some(ParentCache(sp, s)) else None
  }

  // A subsystem that was begun between two states of the counters.
  predicate BegunBetween(was: seq<nat>, now: seq<nat>, s: Sub) {
    s.level < |was| == |now| && was[s.level] <= s.index < now[s.level]
  }

  predicate PlannedBetween(sp: Spec, was: seq<nat>, now: seq<nat>, w: Wire)
    requires Valid(sp)
  {
    Planned(sp, w) && BegunBetween(was, now, Maker(w))
  }

  lemma {:induction false} KidIndex(i: nat, k: nat, n: nat)
    requires k < n
    ensures (i * n + k) / n == i && (i * n + k) % n == k
  {
    B.DivModUnique(i * n + k, n, i, k);
  }

  // What one subsystem connects itself.
  lemma {:induction false} OwnWires(sp: Spec, sub: Sub, w: Wire)
    requires Valid(sp) && 0 < sub.level <= Depth(sp)
    ensures Planned(sp, w) && Maker(w) == sub <==>
            || (BelowOf(sp, sub).Some? && w == Wire(XbarMaster(sub), CpuSide(BelowOf(sp, sub).value)))
            || IsTreeWire(sub, NumCaches(sp, sub.level), w)
            || IsTesterWire(sub, NumTesters(sp, sub.level), w)
  {
  }

  lemma {:induction false} OwnTopWires(sp: Spec, sub: Sub, w: Wire)
    requires Valid(sp) && sub.level == 0
    ensures Planned(sp, w) && Maker(w) == sub <==>
            if NumTesters(sp, 0) > 1
            then w == Wire(XbarMaster(sub), CpuSide(ParentCache(sp, sub))) || IsTopWire(sub, NumTesters(sp, 0), w)
            else w == Wire(TesterPort(sub, 0), CpuSide(ParentCache(sp, sub)))
  {
  }

  lemma {:induction false} LevelWires(sp: Spec, level: nat, below: Option<Cache>, st: State, w: Wire)
    requires Valid(sp) && Aligned(sp, st.next, level) && below == BelowOf(sp, Sub(level, st.next[level]))
    ensures var r := Level(sp, level, below, st);
            r.Some? && (w in r.value.wires <==> w in st.wires || PlannedBetween(sp, st.next, r.value.next, w))
    decreases level, 0, 0
  {
    LevelNext(sp, level, below, st);
    if level != 0 { HighLevelWires(sp, level, below, st, w); } else { TopLevelWires(sp, below.value, st, w); }
  }

  lemma {:induction false} TopLevelWires(sp: Spec, below: Cache, st: State, w: Wire)
    requires Valid(sp) && Aligned(sp, st.next, 0) && below == ParentCache(sp, Sub(0, st.next[0]))
    ensures var r := Level(sp, 0, Some(below), st);
            r.Some? && (w in r.value.wires <==> w in st.wires || PlannedBetween(sp, st.next, r.value.next, w))
  {
    var sub, n := Sub(0, st.next[0]), NumTesters(sp, 0);
    var st1 := Begin(st, 0);
    LevelNext(sp, 0, Some(below), st);
    OwnTopWires(sp, sub, w);
    if n > 1 { TopWires(Attach(st1, sub, Some(below)), sub, n, w); }
    assert BegunBetween(st.next, st1.next, Maker(w)) <==> Maker(w) == sub;
  }

  lemma {:induction false} HighLevelWires(sp: Spec, level: nat, below: Option<Cache>, st: State, w: Wire)
    requires Valid(sp) && Aligned(sp, st.next, level) && level > 0 && below == BelowOf(sp, Sub(level, st.next[level]))
    ensures var r := Level(sp, level, below, st);
            r.Some? && (w in r.value.wires <==> w in st.wires || PlannedBetween(sp, st.next, r.value.next, w))
    decreases level - 1, 3, 0
  {
    var sub, n := Sub(level, st.next[level]), NumCaches(sp, level);
    var st2 := Attach(Begin(st, level), sub, below);
    KidsNext(sp, level, sub, n, st2);
    KidsWires(sp, level, sub, n, st2, w);
    LevelStep(sp, level, below, st);
    var st3 := Kids(sp, level, sub, n, st2).value;
    TesterWires(st3, sub, NumTesters(sp, level), w);
    OwnWires(sp, sub, w);
    BegunHere(st.next, st2.next, st3.next, level, n, Maker(w));
  }

  lemma {:induction false} BegunHere(was: seq<nat>, mid: seq<nat>, now: seq<nat>, level: nat, n: nat, s: Sub)
    requires 0 < level < |was| == |mid| == |now| && mid == was[level := was[level] + 1]
    requires Counted(mid, now, level - 1, n)
    ensures BegunBetween(was, now, s) <==> s == Sub(level, was[level]) || BegunBetween(mid, now, s)
  {
  }

  lemma {:induction false} KidsWires(sp: Spec, level: nat, sub: Sub, n: nat, st: State, w: Wire)
    requires Valid(sp) && 0 < level <= Depth(sp) && sub.level == level && Aligned(sp, st.next, level - 1)
    requires n <= NumCaches(sp, level) && st.next[level - 1] == sub.index * NumCaches(sp, level)
    ensures var r := Kids(sp, level, sub, n, st);
            r.Some? && (w in r.value.wires <==>
                          w in st.wires || IsTreeWire(sub, n, w) || PlannedBetween(sp, st.next, r.value.next, w))
    decreases level - 1, 1, n
  {
    if n > 0 {
      KidsWires(sp, level, sub, n - 1, st, w);
      KidsNext(sp, level, sub, n - 1, st);
      var t := Kids(sp, level, sub, n - 1, st).value;
      var r := OneKid(sp, level, sub, n - 1, t, w);
      KidsStep(sp, level, sub, n, st);
      BegunInTwo(st.next, t.next, r.next, level - 1, Maker(w));
    }
  }

  lemma {:induction false} OneKid(sp: Spec, level: nat, sub: Sub, k: nat, t: State, w: Wire) returns (r: State)
    requires Valid(sp) && 0 < level <= Depth(sp) && sub.level == level && Aligned(sp, t.next, level - 1)
    requires k < NumCaches(sp, level) && t.next[level - 1] == sub.index * NumCaches(sp, level) + k
    ensures var c := TreeCache(sub, k);
            && Level(sp, level - 1, Some(c), Connect(t, MemSide(c), XbarSlave(sub))) == Some(r)
            && Counted(t.next, r.next, level - 1, 1)
            && (w in r.wires <==> || w in t.wires || w == Wire(MemSide(c), XbarSlave(sub))
                                  || PlannedBetween(sp, t.next, r.next, w))
    decreases level - 1, 0, 1
  {
    var c := TreeCache(sub, k);
    var u := Connect(t, MemSide(c), XbarSlave(sub));
    KidIndex(sub.index, k, NumCaches(sp, level));
    LevelWires(sp, level - 1, Some(c), u, w);
    LevelNext(sp, level - 1, Some(c), u);
    r := Level(sp, level - 1, Some(c), u).value;
  }

  lemma {:induction false} BegunInTwo(was: seq<nat>, mid: seq<nat>, now: seq<nat>, level: nat, s: Sub)
    requires level < |was| == |mid| == |now|
    requires forall l :: 0 <= l < |was| ==> was[l] <= mid[l] <= now[l]
    ensures BegunBetween(was, now, s) <==> BegunBetween(was, mid, s) || BegunBetween(mid, now, s)
  {
  }

  lemma {:induction false} PopulationReached(sp: Spec, next: seq<nat>, level: nat)
    requires Valid(sp) && Aligned(sp, next, Depth(sp)) && next[Depth(sp)] == 1 && level <= Depth(sp)
    ensures next[level] == Population(sp, level)
    decreases Depth(sp) - level
  {
    if level < Depth(sp) { PopulationReached(sp, next, level + 1); }
  }

  /** The built system has exactly the planned connections, those of as many subsystems on
      each level as the levels below it have caches. */
  lemma {:induction false} WiredAsPlanned(sp: Spec, w: Wire)
    requires Valid(sp)
    ensures var r := Build(sp);
            r.Some? && (w in r.value.wires <==> Planned(sp, w) && Maker(w).index < Population(sp, Maker(w).level))
  {
    var st := Start(sp);
    LevelWires(sp, Depth(sp), None, st, w);
    LevelNext(sp, Depth(sp), None, st);
    if Planned(sp, w) { PopulationReached(sp, Build(sp).value.next, Maker(w).level); }
  }

  lemma {:induction false} LevelSubs(sp: Spec, level: nat, below: Option<Cache>, st: State, s: Sub)
    requires Valid(sp) && Aligned(sp, st.next, level) && (level == 0 ==> below.Some?)
    ensures var r := Level(sp, level, below, st);
            r.Some? && (s in r.value.subs <==> s in st.subs || BegunBetween(st.next, r.value.next, s))
    decreases level, 0, 0
  {
    LevelNext(sp, level, below, st);
    if level != 0 {
      var sub, n := Sub(level, st.next[level]), NumCaches(sp, level);
      var st2 := Attach(Begin(st, level), sub, below);
      KidsNext(sp, level, sub, n, st2);
      KidsSubs(sp, level, sub, n, st2, s);
      LevelStep(sp, level, below, st);
      BegunHere(st.next, st2.next, Kids(sp, level, sub, n, st2).value.next, level, n, s);
    } else {
      assert BegunBetween(st.next, Begin(st, 0).next, s) <==> s == Sub(0, st.next[0]);
    }
  }

  lemma {:induction false} KidsSubs(sp: Spec, level: nat, sub: Sub, n: nat, st: State, s: Sub)
    requires Valid(sp) && 0 < level <= Depth(sp) && Aligned(sp, st.next, level - 1)
    ensures var r := Kids(sp, level, sub, n, st);
            r.Some? && (s in r.value.subs <==> s in st.subs || BegunBetween(st.next, r.value.next, s))
    decreases level - 1, 1, n
  {
    KidsNext(sp, level, sub, n, st);
    if n > 0 {
      KidsSubs(sp, level, sub, n - 1, st, s);
      KidsNext(sp, level, sub, n - 1, st);
      var t, c := Kids(sp, level, sub, n - 1, st).value, TreeCache(sub, n - 1);
      var u := Connect(t, MemSide(c), XbarSlave(sub));
      LevelSubs(sp, level - 1, Some(c), u, s);
      LevelNext(sp, level - 1, Some(c), u);
      KidsStep(sp, level, sub, n, st);
      BegunInTwo(st.next, t.next, Kids(sp, level, sub, n, st).value.next, level - 1, s);
    }
  }

  // The subsystems are numbered from 0 on each level, without gaps.
  lemma {:induction false} SubsAsPlanned(sp: Spec, s: Sub)
    requires Valid(sp)
    ensures var r := Build(sp);
            r.Some? && (s in r.value.subs <==> s.level <= Depth(sp) && s.index < Population(sp, s.level))
  {
    var st := Start(sp);
    LevelSubs(sp, Depth(sp), None, st, s);
    LevelNext(sp, Depth(sp), None, st);
    if s.level <= Depth(sp) { PopulationReached(sp, Build(sp).value.next, s.level); }
  }

  // ---------------------------------------------------------------- the way to memory

  // From port p the crossbar of t is reached, directly or through one cache.
  ghost predicate Enters(wires: seq<Wire>, p: Port, t: Sub) {
    Wire(p, XbarSlave(t)) in wires || exists c :: Through(wires, p, c, t)
  }

  ghost predicate Through(wires: seq<Wire>, p: Port, c: Cache, t: Sub) {
    Wire(p, CpuSide(c)) in wires && Wire(MemSide(c), XbarSlave(t)) in wires
  }

  // Each crossbar leads to the next.
  ghost predicate Leads(wires: seq<Wire>, path: seq<Sub>) {
    forall i :: 0 < i < |path| ==> Enters(wires, XbarMaster(path[i - 1]), path[i])
  }

  lemma {:induction false} ParentExists(sp: Spec, s: Sub)
    requires Valid(sp) && s.level < Depth(sp) && s.index < Population(sp, s.level)
    ensures var c := ParentCache(sp, s);
            && c.sub.level == s.level + 1 && c.sub.index < Population(sp, s.level + 1) && c.k < NumCaches(sp, s.level + 1)
            && Planned(sp, Wire(MemSide(c), XbarSlave(c.sub)))
  {
    DivBelow(s.index, NumCaches(sp, s.level + 1), Population(sp, s.level + 1));
  }

  lemma {:induction false} DivBelow(i: nat, n: nat, q: nat)
    requires n > 0 && i < q * n
    ensures i / n < q
  {
    var a := i / n;
    assert a * n <= i;
    if a >= q { B.MulGap(n, a + 1, q); }
  }

  lemma {:induction false} StepDown(sp: Spec, s: Sub, p: Port)
    requires Valid(sp) && s.level < Depth(sp) && s.index < Population(sp, s.level)
    requires Planned(sp, Wire(p, CpuSide(ParentCache(sp, s)))) && Maker(Wire(p, CpuSide(ParentCache(sp, s)))) == s
    ensures Build(sp).Some? && Enters(Build(sp).value.wires, p, ParentCache(sp, s).sub)
  {
    var c := ParentCache(sp, s);
    ParentExists(sp, s);
    WiredAsPlanned(sp, Wire(p, CpuSide(c)));
    WiredAsPlanned(sp, Wire(MemSide(c), XbarSlave(c.sub)));
    assert Through(Build(sp).value.wires, p, c, c.sub);
  }

  lemma {:induction false} PathDown(sp: Spec, s: Sub) returns (path: seq<Sub>)
    requires Valid(sp) && s.level <= Depth(sp) && s.index < Population(sp, s.level)
    requires s.level > 0 || NumTesters(sp, 0) > 1
    ensures path != [] && path[0] == s && path[|path| - 1] == Sub(Depth(sp), 0)
    ensures Build(sp).Some? && Leads(Build(sp).value.wires, path)
    decreases Depth(sp) - s.level
  {
    WiredAsPlanned(sp, Wire(XbarMaster(s), XbarSlave(s)));
    if s.level == Depth(sp) {
      path := [s];
    } else {
      var t := ParentCache(sp, s).sub;
      ParentExists(sp, s);
      StepDown(sp, s, XbarMaster(s));
      var rest := PathDown(sp, t);
      path := [s] + rest;
      assert forall i :: 0 < i < |rest| ==> path[i] == rest[i - 1] && path[i + 1] == rest[i];
      forall i | 0 < i < |path| ensures Enters(Build(sp).value.wires, XbarMaster(path[i - 1]), path[i]) {
        if i > 1 { assert Enters(Build(sp).value.wires, XbarMaster(rest[i - 2]), rest[i - 1]); }
      }
    }
  }

  ghost predicate ReachesMemory(wires: seq<Wire>, p: Port, bottom: Sub) {
    exists path :: path != [] && path[|path| - 1] == bottom && Enters(wires, p, path[0]) && Leads(wires, path)
  }

  /** From every tester the connections lead down to the lowest crossbar, one level at a
      time. */
  lemma {:induction false} TesterReachesMemory(sp: Spec, s: Sub, k: nat)
    requires Valid(sp) && s.level <= Depth(sp) && s.index < Population(sp, s.level) && k < NumTesters(sp, s.level)
    ensures Build(sp).Some? && ReachesMemory(Build(sp).value.wires, TesterPort(s, k), Sub(Depth(sp), 0))
  {
    var p := TesterPort(s, k);
    WiredAsPlanned(sp, Wire(p, TesterPeer(sp, s, k)));
    var wires := Build(sp).value.wires;
    if s.level > 0 {
      WiredAsPlanned(sp, Wire(MemSide(TesterCache(s, k)), XbarSlave(s)));
      assert Through(wires, p, TesterCache(s, k), s);
      var path := PathDown(sp, s);
    } else if NumTesters(sp, 0) > 1 {
      var path := PathDown(sp, s);
    } else {
      ParentExists(sp, s);
      StepDown(sp, s, p);
      var path := PathDown(sp, ParentCache(sp, s).sub);
    }
  }

  // ---------------------------------------------------------------- no connection is made twice

  predicate HasPort(w: Wire, p: Port) { w.a == p || w.b == p }

  lemma {:induction false} EndsAtLeast(wires: seq<Wire>, i: nat, p: Port)
    requires i < |wires| && HasPort(wires[i], p)
    ensures Ends(wires, p) >= 1
  {
    if i < |wires| - 1 { EndsAtLeast(wires[..|wires| - 1], i, p); }
  }

  lemma {:induction false} EndsTwice(wires: seq<Wire>, i: nat, j: nat, p: Port)
    requires i < j < |wires| && HasPort(wires[i], p) && HasPort(wires[j], p)
    ensures Ends(wires, p) >= 2
  {
    if j < |wires| - 1 { EndsTwice(wires[..|wires| - 1], i, j, p); } else { EndsAtLeast(wires[..|wires| - 1], i, p); }
  }

  /** No connection is made twice. */
  lemma {:induction false} WiresDistinct(sp: Spec)
    requires Valid(sp)
    ensures Build(sp).Some? && Distinct(Build(sp).value.wires)
  {
    WiredAsPlanned(sp, Wire(XbarSlave(Sub(0, 0)), XbarSlave(Sub(0, 0))));
    var wires := Build(sp).value.wires;
    forall i, j | 0 <= i < j < |wires| ensures wires[i] != wires[j] {
      WiredAsPlanned(sp, wires[i]);
      var p := if wires[i].a.XbarMaster? then wires[i].b else wires[i].a;
      EveryPortOnce(sp, p);
      if wires[i] == wires[j] { EndsTwice(wires, i, j, p); }
    }
  }

  // ---------------------------------------------------------------- the program

  /** numtesters. */
  method CountTesters(sp: Spec) returns (total: int)
    requires Valid(sp)
    ensures total == Total(sp, Depth(sp) + 1)
  {
    var multiplier := [1];
    for i := 0 to |sp.caches|
      invariant |multiplier| == i + 1
      invariant forall j :: 0 <= j <= i ==> multiplier[j] == Multiplier(sp, j)
    {
      multiplier := multiplier + [multiplier[i] * sp.caches[i]];
    }
    total := 0;
    for i := 0 to |sp.testers|
      invariant total == Total(sp, i)
    {
      total := total + sp.testers[i] * multiplier[i];
    }
  }

  // ---------------------------------------------------------------- cache prototypes

  datatype Proto = Proto(size: nat, assoc: nat, mshrs: nat, latency: nat, writebackClean: bool, inclusive: bool)

  // the next prototype towards the memory
  function Scale(prev: Proto, scale: nat): Proto {
    Proto(prev.size * scale, prev.assoc * scale, prev.mshrs * scale, prev.latency * 10,
          !prev.writebackClean, !prev.inclusive)
  }

  // the prototype of the tree caches of level j + 1
  function ProtoAt(l1: Proto, sp: Spec, j: nat): Proto
    requires Valid(sp) && j < Depth(sp)
  {
    if j == 0 then l1 else Scale(ProtoAt(l1, sp, j - 1), sp.caches[j - 1])
  }

  lemma {:induction false} MulAssoc(a: nat, b: nat, c: nat)
    ensures (a * b) * c == a * (b * c)
  {
  }

  lemma {:induction false} ProtoSizes(l1: Proto, sp: Spec, j: nat)
    requires Valid(sp) && j < Depth(sp)
    ensures var p, m := ProtoAt(l1, sp, j), Multiplier(sp, j);
            p.size == l1.size * m && p.assoc == l1.assoc * m && p.mshrs == l1.mshrs * m
  {
    if j > 0 {
      ProtoSizes(l1, sp, j - 1);
      var m, c := Multiplier(sp, j - 1), sp.caches[j - 1];
      MulAssoc(l1.size, m, c);
      MulAssoc(l1.assoc, m, c);
      MulAssoc(l1.mshrs, m, c);
    }
  }

  lemma {:induction false} ProtoLatency(l1: Proto, sp: Spec, j: nat)
    requires Valid(sp) && j < Depth(sp)
    ensures ProtoAt(l1, sp, j).latency == l1.latency * Pow10(j)
  {
    if j > 0 {
      ProtoLatency(l1, sp, j - 1);
      MulAssoc(l1.latency, Pow10(j - 1), 10);
    }
  }

  lemma {:induction false} ProtoAlternates(l1: Proto, sp: Spec, j: nat)
    requires Valid(sp) && j < Depth(sp)
    ensures var p := ProtoAt(l1, sp, j);
            && (p.inclusive == l1.inclusive <==> j % 2 == 0)
            && (p.writebackClean == l1.writebackClean <==> j % 2 == 0)
  {
    if j > 0 { ProtoAlternates(l1, sp, j - 1); }
  }

  /** Sizes grow with the multiplier that also counts subsystems, latencies tenfold per
      level, and inclusive and exclusive levels alternate. */
  lemma {:induction false} ProtoScaled(l1: Proto, sp: Spec, j: nat)
    requires Valid(sp) && j < Depth(sp)
    ensures var p, m := ProtoAt(l1, sp, j), Multiplier(sp, j);
            && p.size == l1.size * m && p.assoc == l1.assoc * m && p.mshrs == l1.mshrs * m
            && p.latency == l1.latency * Pow10(j)
            && (p.inclusive == l1.inclusive <==> j % 2 == 0)
            && (p.writebackClean == l1.writebackClean <==> j % 2 == 0)
  {
    ProtoSizes(l1, sp, j);
    ProtoLatency(l1, sp, j);
    ProtoAlternates(l1, sp, j);
  }

  // The loop that scales the first-level prototype; the list starts at the memory side.
  method ScalePrototypes(l1: Proto, sp: Spec) returns (protos: seq<Proto>)
    requires Valid(sp)
    ensures |protos| == Depth(sp)
    ensures forall k :: 0 <= k < |protos| ==> protos[k] == ProtoAt(l1, sp, Depth(sp) - 1 - k)
  {
    protos := [l1];
    for j := 0 to |sp.caches| - 1
      invariant |protos| == j + 1
      invariant forall k :: 0 <= k <= j ==> protos[k] == ProtoAt(l1, sp, j - k)
    {
      protos := [Scale(protos[0], sp.caches[j])] + protos;
    }
  }

  datatype Made = Made(cache: Cache, proto: Proto)

  // The caches of one subsystem: those of its testers, from the first prototype, then the
  // tree caches, from the prototype of its level.
  ghost predicate CachesRight(sp: Spec, l1: Proto, s: Sub, made: seq<Made>)
    requires Valid(sp) && s.level <= Depth(sp)
  {
    if s.level == 0 then made == []
    else
      var n := NumTesters(sp, s.level);
      && |made| == n + NumCaches(sp, s.level)
      && (forall k :: 0 <= k < n ==> made[k] == Made(TesterCache(s, k), l1))
      && (forall k :: n <= k < |made| ==> made[k] == Made(TreeCache(s, k - n), ProtoAt(l1, sp, s.level - 1)))
  }

  ghost predicate AllRight(sp: Spec, l1: Proto, subs: seq<Sub>, made: seq<seq<Made>>)
    requires Valid(sp) && LevelsOk(sp, subs)
  {
    |made| == |subs| && forall i :: 0 <= i < |subs| ==> CachesRight(sp, l1, subs[i], made[i])
  }

  class Builder {
    const sp: Spec
    const l1: Proto
    var next: seq<nat>
    var subs: seq<Sub>
    var wires: seq<Wire>
    var made: seq<seq<Made>>

    ghost predicate Ready()
      reads this
    {
      Valid(sp) && |next| == Depth(sp) + 1 && LevelsOk(sp, subs)
    }

    ghost predicate CachesMade()
      requires Ready()
      reads this
    {
      AllRight(sp, l1, subs, made)
    }

    function View(): State
      reads this
    {
      State(next, subs, wires)
    }

    constructor (sp: Spec, l1: Proto)
      requires Valid(sp)
      ensures this.sp == sp && this.l1 == l1 && Ready() && CachesMade() && View() == Start(sp)
    {
      this.sp, this.l1 := sp, l1;
      next, subs, wires, made := seq(|sp.caches| + 1, i => 0), [], [], [];
    }

    // The arguments of make_cache_level: both lists from the current level upwards.
    ghost predicate Arguments(level: nat, ncaches: seq<int>, protos: seq<Proto>)
      requires Valid(sp) && level <= Depth(sp)
    {
      && ncaches == sp.caches[Depth(sp) - level..]
      && |protos| == level && forall k :: 0 <= k < level ==> protos[k] == ProtoAt(l1, sp, level - 1 - k)
    }

    method CreateCaches(sub: Sub, n: nat, proto: Proto, testers: nat) returns (caches: seq<Made>)
      ensures |caches| == testers + n
      ensures forall k :: 0 <= k < testers ==> caches[k] == Made(TesterCache(sub, k), l1)
      ensures forall k :: testers <= k < testers + n ==> caches[k] == Made(TreeCache(sub, k - testers), proto)
    {
      caches := [];
      for k := 0 to testers
        invariant |caches| == k && forall j :: 0 <= j < k ==> caches[j] == Made(TesterCache(sub, j), l1)
      {
        caches := caches + [Made(TesterCache(sub, k), l1)];
      }
      for k := 0 to n
        invariant |caches| == testers + k && forall j :: 0 <= j < testers ==> caches[j] == Made(TesterCache(sub, j), l1)
        invariant forall j :: testers <= j < testers + k ==> caches[j] == Made(TreeCache(sub, j - testers), proto)
      {
        caches := caches + [Made(TreeCache(sub, k), proto)];
      }
    }

    method Assign(a: Port, b: Port)
      modifies this`wires
      ensures View() == Connect(old(View()), a, b)
    {
      wires := wires + [Wire(a, b)];
    }

    method WireTesters(sub: Sub, n: nat)
      modifies this`wires
      ensures View() == ConnectTesters(old(View()), sub, n)
    {
      ghost var st := View();
      for k := 0 to n
        invariant View() == ConnectTesters(st, sub, k)
      {
        Assign(TesterPort(sub, k), CpuSide(TesterCache(sub, k)));
        Assign(MemSide(TesterCache(sub, k)), XbarSlave(sub));
      }
    }

    method WireTop(sub: Sub, n: nat)
      modifies this`wires
      ensures View() == ConnectTop(old(View()), sub, n)
    {
      ghost var st := View();
      for k := 0 to n
        invariant View() == ConnectTop(st, sub, k)
      {
        Assign(TesterPort(sub, k), XbarSlave(sub));
      }
    }

    method NewSubsystem(level: nat) returns (sub: Sub)
      requires Ready() && level <= Depth(sp)
      modifies this`next, this`subs, this`made
      ensures Ready() && sub == Sub(level, old(next)[level]) && View() == Begin(old(View()), level)
      ensures made == old(made) + [[]]
    {
      sub := Sub(level, next[level]);
      next := next[level := next[level] + 1];
      subs, made := subs + [sub], made + [[]];
    }

    method WireBelow(sub: Sub, below: Option<Cache>)
      modifies this`wires
      ensures View() == Attach(old(View()), sub, below)
    {
      if below.Some? {
        Assign(XbarMaster(sub), CpuSide(below.value));
      }
    }

    // A subsystem with a crossbar and its caches, standing on `below`.
    method OpenSubsystem(level: nat, below: Option<Cache>, ncaches: nat, proto: Proto) returns (sub: Sub)
      requires Ready() && CachesMade() && 0 < level <= Depth(sp)
      requires ncaches == NumCaches(sp, level) && proto == ProtoAt(l1, sp, level - 1)
      modifies this
      ensures Ready() && CachesMade() && sub == Sub(level, old(next)[level])
      ensures View() == Attach(Begin(old(View()), level), sub, below)
    {
      sub := NewSubsystem(level);
      WireBelow(sub, below);
      var caches := CreateCaches(sub, ncaches, proto, NumTesters(sp, level));
      made := made[|made| - 1 := caches];
    }

    // The topmost level, without caches of its own.
    method MakeTop(below: Option<Cache>) returns (ok: bool)
      requires Ready() && CachesMade()
      modifies this
      ensures Ready() && CachesMade()
      ensures ok <==> Level(sp, 0, below, old(View())).Some?
      ensures ok ==> View() == Level(sp, 0, below, old(View())).value
    {
      var sub := NewSubsystem(0);
      var n := NumTesters(sp, 0);
      if below.None? {
        return false;
      }
      if n > 1 {
        WireBelow(sub, below);
        WireTop(sub, n);
      } else {
        Assign(TesterPort(sub, 0), CpuSide(below.value));
      }
      ok := true;
    }

    // make_cache_level; false stands for the error exit
    method MakeCacheLevel(ncaches: seq<int>, protos: seq<Proto>, level: nat, below: Option<Cache>) returns (ok: bool)
      requires Ready() && CachesMade() && level <= Depth(sp) && Arguments(level, ncaches, protos)
      modifies this
      ensures Ready() && CachesMade()
      ensures ok <==> Level(sp, level, below, old(View())).Some?
      ensures ok ==> View() == Level(sp, level, below, old(View())).value
      decreases level, 1
    {
      if level == 0 {
        ok := MakeTop(below);
      } else {
        LevelStep(sp, level, below, View());
        var sub := OpenSubsystem(level, below, ncaches[0], protos[0]);
        ok := MakeKids(ncaches, protos, level, sub);
        if ok {
          WireTesters(sub, NumTesters(sp, level));
        }
      }
    }

    // the loop over the caches that fan out to subtrees
    method MakeKids(ncaches: seq<int>, protos: seq<Proto>, level: nat, sub: Sub) returns (ok: bool)
      requires Ready() && CachesMade() && 0 < level <= Depth(sp) && Arguments(level, ncaches, protos)
      modifies this
      ensures Ready() && CachesMade()
      ensures ok <==> Kids(sp, level, sub, NumCaches(sp, level), old(View())).Some?
      ensures ok ==> View() == Kids(sp, level, sub, NumCaches(sp, level), old(View())).value
      decreases level, 0
    {
      ghost var st := View();
      var n, above, smaller := ncaches[0], ncaches[1..], protos[1..];
      assert Arguments(level - 1, above, smaller);
      for k := 0 to n
        invariant Ready() && CachesMade() && Kids(sp, level, sub, k, st) == Some(View())
      {
        KidsAfter(sp, level, sub, k, n, st, View());
        ok := MakeKid(above, smaller, level, sub, k);
        if !ok {
          return;
        }
      }
      ok := true;
    }

    // one of them, with the subtree above it
    method MakeKid(ncaches: seq<int>, protos: seq<Proto>, level: nat, sub: Sub, k: nat) returns (ok: bool)
      requires Ready() && CachesMade() && 0 < level <= Depth(sp) && Arguments(level - 1, ncaches, protos)
      modifies this
      ensures Ready() && CachesMade()
      ensures var c := TreeCache(sub, k);
              var r := Level(sp, level - 1, Some(c), Connect(old(View()), MemSide(c), XbarSlave(sub)));
              (ok <==> r.Some?) && (ok ==> View() == r.value)
      decreases level - 1, 2
    {
      var c := TreeCache(sub, k);
      Assign(MemSide(c), XbarSlave(sub));
      ok := MakeCacheLevel(ncaches, protos, level - 1, Some(c));
    }
  }

  // What the built system consists of.
  ghost predicate SystemRight(sp: Spec, l1: Proto, subs: seq<Sub>, wires: seq<Wire>, made: seq<seq<Made>>)
    requires Valid(sp)
  {
    && Distinct(subs) && NamesDiffer(subs) && (forall s :: s in subs <==> InSystem(sp, s))
    && LevelsOk(sp, subs) && AllRight(sp, l1, subs, made)
    && Distinct(wires) && (forall w :: w in wires <==> InSystem(sp, Maker(w)) && Planned(sp, w))
  }

  ghost predicate InSystem(sp: Spec, s: Sub)
    requires Valid(sp)
  {
    s.level <= Depth(sp) && s.index < Population(sp, s.level)
  }

  // Each port of each cache and tester is connected once, and each tester has a way down.
  ghost predicate PortsRight(sp: Spec, subs: seq<Sub>, wires: seq<Wire>)
    requires Valid(sp)
  {
    && LevelsOk(sp, subs)
    && (forall p :: IsSingle(p) ==> Ends(wires, p) == Bit(Owned(sp, subs, p)))
    && (forall s, k: nat :: InSystem(sp, s) && k < NumTesters(sp, s.level) ==>
          ReachesMemory(wires, TesterPort(s, k), Sub(Depth(sp), 0)))
  }

  lemma {:induction false} BuiltRight(sp: Spec, l1: Proto, made: seq<seq<Made>>)
    requires Valid(sp) && Build(sp).Some? && LevelsOk(sp, Build(sp).value.subs)
    requires AllRight(sp, l1, Build(sp).value.subs, made)
    ensures var r := Build(sp).value; SystemRight(sp, l1, r.subs, r.wires, made)
  {
    EveryPortOnce(sp, TesterPort(Sub(0, 0), 0));
    WiresDistinct(sp);
    var r := Build(sp).value;
    forall s ensures s in r.subs <==> InSystem(sp, s) { SubsAsPlanned(sp, s); }
    forall w ensures w in r.wires <==> InSystem(sp, Maker(w)) && Planned(sp, w) { WiredAsPlanned(sp, w); }
  }

  lemma {:induction false} BuiltPortsRight(sp: Spec)
    requires Valid(sp)
    ensures Build(sp).Some? && PortsRight(sp, Build(sp).value.subs, Build(sp).value.wires)
  {
    EveryPortOnce(sp, TesterPort(Sub(0, 0), 0));
    var r := Build(sp).value;
    forall p | IsSingle(p) ensures Ends(r.wires, p) == Bit(Owned(sp, r.subs, p)) { EveryPortOnce(sp, p); }
    forall s, k: nat | InSystem(sp, s) && k < NumTesters(sp, s.level)
      ensures ReachesMemory(r.wires, TesterPort(s, k), Sub(Depth(sp), 0))
    {
      TesterReachesMemory(sp, s, k);
    }
  }

  /** The whole construction: it never takes the error exit, creates exactly the planned
      subsystems, caches (each from the prototype of its level) and connections, each
      once, as many testers as were counted, and from each of them there is a way down to
      the lowest crossbar. */
  method BuildSystem(sp: Spec, l1: Proto) returns (b: Builder, ok: bool)
    requires Valid(sp)
    ensures ok && b.sp == sp && b.l1 == l1
    ensures SystemRight(sp, l1, b.subs, b.wires, b.made)
    ensures PortsRight(sp, b.subs, b.wires) && TesterCount(b.wires) == Total(sp, Depth(sp) + 1)
  {
    var protos := ScalePrototypes(l1, sp);
    b := new Builder(sp, l1);
    assert sp.caches[0..] == sp.caches;
    ok := b.MakeCacheLevel(sp.caches, protos, |sp.caches|, None);
    TestersCreatedAsCounted(sp);
    BuiltRight(sp, l1, b.made);
    BuiltPortsRight(sp);
  }

  lemma {:induction false} KidsAfter(sp: Spec, level: nat, sub: Sub, k: nat, n: nat, st: State, t: State)
    requires Valid(sp) && 0 < level <= Depth(sp) && |st.next| == Depth(sp) + 1
    requires k < n && Kids(sp, level, sub, k, st) == Some(t)
    ensures var c := TreeCache(sub, k);
            var r := Level(sp, level - 1, Some(c), Connect(t, MemSide(c), XbarSlave(sub)));
            Kids(sp, level, sub, k + 1, st) == r && (r.None? ==> Kids(sp, level, sub, n, st).None?)
  {
    KidsStep(sp, level, sub, k + 1, st);
    if Kids(sp, level, sub, k + 1, st).None? { KidsFail(sp, level, sub, k + 1, n, st); }
  }

  lemma {:induction false} KidsFail(sp: Spec, level: nat, sub: Sub, k: nat, n: nat, st: State)
    requires Valid(sp) && 0 < level <= Depth(sp) && |st.next| == Depth(sp) + 1
    requires k <= n && Kids(sp, level, sub, k, st).None?
    ensures Kids(sp, level, sub, n, st).None?
  {
    if k < n { KidsFail(sp, level, sub, k, n - 1, st); }
  }
}

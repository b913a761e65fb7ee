/** Checkpoint migration (util/cpt_upgrader.py): which upgraders and downgraders run on
    a checkpoint, in which order, and when the script gives up.

    The upgrader functions themselves edit the checkpoint file and are not modelled;
    a run is described by the tags it applies.
 */
module Migration {

  type Tag = string

  datatype Kind = Upgrade | Downgrade
  datatype Upgrader = Upgrader(kind: Kind, depends: seq<Tag>, fwdDepends: seq<Tag>)
  type Registry = map<Tag, Upgrader>

  // Upgrader.tag_set and Upgrader.untag_set
  function Upgrades(reg: Registry): set<Tag> { set t | t in reg && reg[t].kind.Upgrade? }
  function Downgrades(reg: Registry): set<Tag> { set t | t in reg && reg[t].kind.Downgrade? }

  // Tags missing from the checkpoint that have an upgrader, and tags present in it
  // that have a downgrader.
  function ToApply(reg: Registry, tags: set<Tag>): set<Tag> {
    (Upgrades(reg) - tags) + (Downgrades(reg) * tags)
  }

  predicate IsReady(u: Upgrader, tags: set<Tag>) {
    forall d :: d in u.depends ==> d in tags
  }

  function Ready(reg: Registry, pending: set<Tag>, tags: set<Tag>): set<Tag>
    requires pending <= reg.Keys
  {
    set t | t in pending && IsReady(reg[t], tags)
  }

  // The tags after every member of `ready` has been updated.
  function Updated(reg: Registry, tags: set<Tag>, ready: set<Tag>): set<Tag> {
    tags + (ready * Upgrades(reg)) - (ready * Downgrades(reg))
  }

  // `rounds` lists what was applied in each turn of the loop.
  datatype Outcome =
    | Done(tags: set<Tag>, rounds: seq<set<Tag>>)
    | Aborted(tags: set<Tag>, rounds: seq<set<Tag>>, stuck: set<Tag>)

  function After(ready: set<Tag>, o: Outcome): Outcome {
    o.(rounds := [ready] + o.rounds)
  }

  function Migrate(reg: Registry, pending: set<Tag>, tags: set<Tag>): Outcome
    requires pending <= reg.Keys
    decreases |pending|
  {
    if pending == {} then Done(tags, [])
    else
      var ready := Ready(reg, pending, tags);
      if ready == {} then Aborted(tags, [], pending)
      else
        Shrinks(pending, ready);
        After(ready, Migrate(reg, pending - ready, Updated(reg, tags, ready)))
  }

  lemma {:induction false} Shrinks(pending: set<Tag>, ready: set<Tag>)
    requires ready <= pending && ready != {}
    ensures |pending - ready| < |pending|
  {
    assert pending == (pending - ready) + ready;
    assert |pending| == |pending - ready| + |ready|;
  }

  // ---------------------------------------------------------------- what every round keeps

  // A pending tag still has to be added or removed; nothing else does.
  ghost predicate Consistent(reg: Registry, pending: set<Tag>, tags: set<Tag>) {
    pending == ToApply(reg, tags)
  }

  lemma {:induction false} RoundKeepsConsistent(reg: Registry, pending: set<Tag>, tags: set<Tag>, ready: set<Tag>)
    requires Consistent(reg, pending, tags) && ready <= pending
    ensures Consistent(reg, pending - ready, Updated(reg, tags, ready))
  {
  }

  lemma {:induction false} GoalKept(reg: Registry, tags: set<Tag>, ready: set<Tag>)
    ensures Updated(reg, tags, ready) + Upgrades(reg) - Downgrades(reg) == tags + Upgrades(reg) - Downgrades(reg)
  {
  }

  /** A completed run leaves exactly the old tags plus every upgrader's tag, minus
      every downgrader's tag; an aborted one leaves the stuck tags unapplied. */
  lemma {:induction false} FinalTags(reg: Registry, pending: set<Tag>, tags: set<Tag>)
    requires Consistent(reg, pending, tags)
    ensures var o := Migrate(reg, pending, tags);
            && (o.Done? ==> o.tags == tags + Upgrades(reg) - Downgrades(reg))
            && (o.Aborted? ==> o.stuck != {} && o.stuck <= pending && Consistent(reg, o.stuck, o.tags)
                               && Ready(reg, o.stuck, o.tags) == {})
    decreases |pending|
  {
    if pending == {} {
    } else {
      var ready := Ready(reg, pending, tags);
      if ready != {} {
        RoundKeepsConsistent(reg, pending, tags, ready);
        Shrinks(pending, ready);
        FinalTags(reg, pending - ready, Updated(reg, tags, ready));
        GoalKept(reg, tags, ready);
      }
    }
  }

  // The tags present before round i.
  function TagsBefore(reg: Registry, tags: set<Tag>, rounds: seq<set<Tag>>, i: nat): set<Tag>
    requires i <= |rounds|
  {
    if i == 0 then tags else Updated(reg, TagsBefore(reg, tags, rounds, i - 1), rounds[i - 1])
  }

  lemma {:induction false} TagsBeforeShift(reg: Registry, tags: set<Tag>, ready: set<Tag>, rest: seq<set<Tag>>, i: nat)
    requires i <= |rest|
    ensures TagsBefore(reg, tags, [ready] + rest, i + 1) == TagsBefore(reg, Updated(reg, tags, ready), rest, i)
  {
    if i > 0 { TagsBeforeShift(reg, tags, ready, rest, i - 1); }
  }

  // Round i applies only pending tags whose dependencies are present when it starts.
  ghost predicate RoundRespects(reg: Registry, pending: set<Tag>, tags: set<Tag>, rounds: seq<set<Tag>>, i: nat)
    requires pending <= reg.Keys && i < |rounds|
  {
    forall t :: t in rounds[i] ==> t in pending && IsReady(reg[t], TagsBefore(reg, tags, rounds, i))
  }

  ghost predicate Respects(reg: Registry, pending: set<Tag>, tags: set<Tag>, rounds: seq<set<Tag>>)
    requires pending <= reg.Keys
  {
    forall i :: 0 <= i < |rounds| ==> RoundRespects(reg, pending, tags, rounds, i)
  }

  ghost predicate Disjoint(rounds: seq<set<Tag>>) {
    forall i, j :: 0 <= i < j < |rounds| ==> rounds[i] !! rounds[j]
  }

  function Applied(rounds: seq<set<Tag>>): set<Tag> {
    if rounds == [] then {} else rounds[0] + Applied(rounds[1..])
  }

  lemma {:induction false} AppliedMember(rounds: seq<set<Tag>>, t: Tag)
    ensures t in Applied(rounds) <==> exists i :: 0 <= i < |rounds| && t in rounds[i]
  {
    if rounds != [] {
      AppliedMember(rounds[1..], t);
      if i :| 0 <= i < |rounds| && t in rounds[i] { assert i > 0 ==> t in rounds[1..][i - 1]; }
      if i :| 0 <= i < |rounds[1..]| && t in rounds[1..][i] { assert t in rounds[i + 1]; }
    }
  }

  lemma {:induction false} RespectsCons(reg: Registry, pending: set<Tag>, tags: set<Tag>, ready: set<Tag>, rest: seq<set<Tag>>)
    requires pending <= reg.Keys && ready == Ready(reg, pending, tags)
    requires Respects(reg, pending - ready, Updated(reg, tags, ready), rest)
    ensures Respects(reg, pending, tags, [ready] + rest)
  {
    var rounds := [ready] + rest;
    forall i | 0 <= i < |rounds| ensures RoundRespects(reg, pending, tags, rounds, i) {
      if i > 0 {
        TagsBeforeShift(reg, tags, ready, rest, i - 1);
        assert RoundRespects(reg, pending - ready, Updated(reg, tags, ready), rest, i - 1);
        assert rounds[i] == rest[i - 1];
      }
    }
  }

  lemma {:induction false} DisjointCons(ready: set<Tag>, rest: seq<set<Tag>>)
    requires Disjoint(rest) && ready !! Applied(rest)
    ensures Disjoint([ready] + rest)
  {
    var rounds := [ready] + rest;
    forall i, j | 0 <= i < j < |rounds| ensures rounds[i] !! rounds[j] {
      assert rounds[j] == rest[j - 1];
      if i > 0 {
        assert rounds[i] == rest[i - 1];
      } else {
        forall t | t in rest[j - 1] ensures t in Applied(rest) { AppliedMember(rest, t); }
      }
    }
  }

  /** In every run each round applies only pending tags whose dependencies are all
      present when it starts, no tag is applied twice, and what is not applied is
      exactly what is reported as impossible to apply. */
  lemma {:induction false} EveryRun(reg: Registry, pending: set<Tag>, tags: set<Tag>)
    requires pending <= reg.Keys
    ensures var o := Migrate(reg, pending, tags);
            && Respects(reg, pending, tags, o.rounds)
            && Disjoint(o.rounds)
            && Applied(o.rounds) == pending - (if o.Done? then {} else o.stuck)
            && (o.Aborted? ==> o.stuck <= pending)
    decreases |pending|
  {
    var ready := Ready(reg, pending, tags);
    if pending != {} && ready != {} {
      Shrinks(pending, ready);
      EveryRun(reg, pending - ready, Updated(reg, tags, ready));
      var o := Migrate(reg, pending - ready, Updated(reg, tags, ready));
      RespectsCons(reg, pending, tags, ready, o.rounds);
      DisjointCons(ready, o.rounds);
      assert ([ready] + o.rounds)[1..] == o.rounds;
    }
  }

  // ---------------------------------------------------------------- when a run aborts

  // Every dependency names a registered upgrader; LoadAll audits this.
  ghost predicate DependsKnown(reg: Registry) {
    forall t, d :: t in reg && d in reg[t].depends ==> d in reg
  }

  // No pending tag depends on a tag that has a downgrader.
  ghost predicate DependsOnUpgrades(reg: Registry, pending: set<Tag>)
    requires pending <= reg.Keys
  {
    forall t, d :: t in pending && d in reg[t].depends && d in reg ==> reg[d].kind.Upgrade?
  }

  // c is a chain of pending tags, each depending on the next.
  ghost predicate Chain(reg: Registry, pending: set<Tag>, c: seq<Tag>)
    requires pending <= reg.Keys
  {
    && (forall i :: 0 <= i < |c| ==> c[i] in pending)
    && (forall i, j :: 0 <= i && i + 1 == j < |c| ==> c[j] in reg[c[i]].depends)
  }

  ghost predicate Cycle(reg: Registry, pending: set<Tag>, c: seq<Tag>)
    requires pending <= reg.Keys
  {
    c != [] && Chain(reg, pending, c) && c[0] in reg[c[|c| - 1]].depends
  }

  lemma {:induction false} DistinctAtMost(c: seq<Tag>, s: set<Tag>)
    requires forall i :: 0 <= i < |c| ==> c[i] in s
    requires forall i, j :: 0 <= i < j < |c| ==> c[i] != c[j]
    ensures |c| <= |s|
  {
    if c != [] {
      var l := c[|c| - 1];
      DistinctAtMost(c[..|c| - 1], s - {l});
      assert s == (s - {l}) + {l};
    }
  }

  // Each tag of s depends on one of s.
  ghost predicate Closed(reg: Registry, s: set<Tag>)
    requires s <= reg.Keys
  {
    forall t {:trigger DependsInside(reg, s, t)} :: t in s ==> DependsInside(reg, s, t)
  }

  ghost predicate DependsInside(reg: Registry, s: set<Tag>, t: Tag)
    requires t in reg
  {
    exists d :: d in reg[t].depends && d in s
  }

  lemma {:induction false} LongChain(reg: Registry, s: set<Tag>, n: nat) returns (c: seq<Tag>)
    requires s <= reg.Keys && s != {} && Closed(reg, s)
    ensures |c| == n && Chain(reg, s, c)
  {
    if n == 0 {
      c := [];
    } else if n == 1 {
      var t :| t in s;
      c := [t];
    } else {
      var b := LongChain(reg, s, n - 1);
      var t := b[|b| - 1];
      assert t in s && DependsInside(reg, s, t);
      var d :| d in reg[t].depends && d in s;
      c := b + [d];
    }
  }

  lemma {:induction false} ClosedHasCycle(reg: Registry, s: set<Tag>) returns (c: seq<Tag>)
    requires s <= reg.Keys && s != {} && Closed(reg, s)
    ensures Cycle(reg, s, c)
  {
    var b := LongChain(reg, s, |s| + 1);
    if forall i, j :: 0 <= i < j < |b| ==> b[i] != b[j] {
      DistinctAtMost(b, s);
      c := [];
    } else {
      var i, j :| 0 <= i < j < |b| && b[i] == b[j];
      c := b[i..j];
    }
  }

  lemma {:induction false} StuckIsClosed(reg: Registry, stuck: set<Tag>, tags: set<Tag>)
    requires Consistent(reg, stuck, tags) && DependsKnown(reg) && DependsOnUpgrades(reg, stuck)
    requires Ready(reg, stuck, tags) == {}
    ensures Closed(reg, stuck)
  {
    forall t | t in stuck ensures DependsInside(reg, stuck, t) {
      assert t !in Ready(reg, stuck, tags);
      var d :| d in reg[t].depends && d !in tags;
      assert d in Upgrades(reg);
    }
  }

  lemma {:induction false} CycleNeverApplied(reg: Registry, pending: set<Tag>, tags: set<Tag>, c: seq<Tag>)
    requires Consistent(reg, pending, tags) && DependsOnUpgrades(reg, pending) && Cycle(reg, pending, c)
    ensures Migrate(reg, pending, tags).Aborted?
    decreases |pending|
  {
    var ready := Ready(reg, pending, tags);
    forall i | 0 <= i < |c| ensures c[i] !in ready {
      var d := if i + 1 < |c| then c[i + 1] else c[0];
      assert d in pending && d in reg[c[i]].depends;
      assert d !in tags;
    }
    assert c[0] in pending;
    if ready != {} {
      Shrinks(pending, ready);
      RoundKeepsConsistent(reg, pending, tags, ready);
      assert Chain(reg, pending - ready, c);
      CycleNeverApplied(reg, pending - ready, Updated(reg, tags, ready), c);
    }
  }

  /** Once the dependencies are audited and no pending tag depends on a downgraded
      one, a migration gives up exactly when the pending tags contain a dependency
      cycle; otherwise it ends with every pending tag applied. */
  lemma {:induction false} AbortsExactlyOnCycle(reg: Registry, tags: set<Tag>)
    requires DependsKnown(reg) && DependsOnUpgrades(reg, ToApply(reg, tags))
    ensures Migrate(reg, ToApply(reg, tags), tags).Aborted? <==> exists c :: Cycle(reg, ToApply(reg, tags), c)
  {
    var pending := ToApply(reg, tags);
    FinalTags(reg, pending, tags);
    if Migrate(reg, pending, tags).Aborted? {
      var o := Migrate(reg, pending, tags);
      StuckIsClosed(reg, o.stuck, o.tags);
      var c := ClosedHasCycle(reg, o.stuck);
      assert Chain(reg, pending, c);
      assert Cycle(reg, pending, c);
    }
    if c :| Cycle(reg, pending, c) {
      CycleNeverApplied(reg, pending, tags, c);
    }
  }

  // ---------------------------------------------------------------- when any run completes

  // r gives each pending tag the round, counted from n, that its dependencies allow:
  // after all pending upgrades it depends on, no later than the removal of a tag it
  // depends on, and no later than necessary.
  ghost predicate Ranking(reg: Registry, pending: set<Tag>, tags: set<Tag>, r: map<Tag, nat>, n: nat)
    requires pending <= reg.Keys
  {
    pending <= r.Keys
    && forall t {:trigger Ranked(reg, pending, tags, r, n, t)} :: t in pending ==> Ranked(reg, pending, tags, r, n, t)
  }

  ghost predicate Ranked(reg: Registry, pending: set<Tag>, tags: set<Tag>, r: map<Tag, nat>, n: nat, t: Tag)
    requires pending <= reg.Keys && pending <= r.Keys && t in pending
  {
    && r[t] >= n
    && (forall d :: d in reg[t].depends ==> Met(reg, pending, tags, r, t, d))
    && (r[t] > n ==> exists d :: Follows(reg, pending, r, t, d))
  }

  predicate Met(reg: Registry, pending: set<Tag>, tags: set<Tag>, r: map<Tag, nat>, t: Tag, d: Tag)
    requires pending <= reg.Keys && pending <= r.Keys && t in pending
  {
    if d !in pending then d in tags
    else if reg[d].kind.Upgrade? then r[d] < r[t]
    else r[t] <= r[d]
  }

  // t waits for the pending upgrade d of the round before.
  predicate Follows(reg: Registry, pending: set<Tag>, r: map<Tag, nat>, t: Tag, d: Tag)
    requires pending <= reg.Keys && pending <= r.Keys && t in pending
  {
    d in reg[t].depends && d in pending && reg[d].kind.Upgrade? && r[d] + 1 == r[t]
  }

  lemma {:induction false} LowestRank(reg: Registry, pending: set<Tag>, tags: set<Tag>, r: map<Tag, nat>, n: nat, t: Tag)
    returns (low: Tag)
    requires pending <= reg.Keys && Ranking(reg, pending, tags, r, n) && t in pending
    ensures low in pending && r[low] == n
    decreases r[t]
  {
    assert Ranked(reg, pending, tags, r, n, t);
    if r[t] == n {
      low := t;
    } else {
      var d :| Follows(reg, pending, r, t, d);
      low := LowestRank(reg, pending, tags, r, n, d);
    }
  }

  // The tags of the lowest rank are exactly the ready ones.
  lemma {:induction false} ReadyIsLowest(reg: Registry, pending: set<Tag>, tags: set<Tag>, r: map<Tag, nat>, n: nat, t: Tag)
    requires Consistent(reg, pending, tags) && Ranking(reg, pending, tags, r, n) && t in pending
    ensures t in Ready(reg, pending, tags) <==> r[t] == n
  {
    assert Ranked(reg, pending, tags, r, n, t);
    if r[t] == n {
      forall d | d in reg[t].depends ensures d in tags {
        assert Met(reg, pending, tags, r, t, d);
        if d in pending { assert Ranked(reg, pending, tags, r, n, d); }
      }
    } else {
      var d :| Follows(reg, pending, r, t, d);
      assert d !in tags;
    }
  }

  lemma {:induction false} RankingStep(reg: Registry, pending: set<Tag>, tags: set<Tag>, r: map<Tag, nat>, n: nat, t: Tag)
    requires Consistent(reg, pending, tags) && Ranking(reg, pending, tags, r, n)
    requires t in pending - Ready(reg, pending, tags)
    ensures var ready := Ready(reg, pending, tags);
            Ranked(reg, pending - ready, Updated(reg, tags, ready), r, n + 1, t)
  {
    var ready := Ready(reg, pending, tags);
    var rest, tags' := pending - ready, Updated(reg, tags, ready);
    assert Ranked(reg, pending, tags, r, n, t);
    ReadyIsLowest(reg, pending, tags, r, n, t);
    forall d | d in reg[t].depends ensures Met(reg, rest, tags', r, t, d) {
      assert Met(reg, pending, tags, r, t, d);
      if d in ready { ReadyIsLowest(reg, pending, tags, r, n, d); }
    }
    if r[t] > n + 1 {
      var d :| Follows(reg, pending, r, t, d);
      ReadyIsLowest(reg, pending, tags, r, n, d);
      assert Follows(reg, rest, r, t, d);
    }
  }

  lemma {:induction false} RankedCompletes(reg: Registry, pending: set<Tag>, tags: set<Tag>, r: map<Tag, nat>, n: nat)
    requires Consistent(reg, pending, tags) && Ranking(reg, pending, tags, r, n)
    ensures Migrate(reg, pending, tags).Done?
    decreases |pending|
  {
    if pending != {} {
      var ready := Ready(reg, pending, tags);
      var t :| t in pending;
      var low := LowestRank(reg, pending, tags, r, n, t);
      ReadyIsLowest(reg, pending, tags, r, n, low);
      assert low in ready;
      forall t | t in pending - ready ensures Ranked(reg, pending - ready, Updated(reg, tags, ready), r, n + 1, t) {
        RankingStep(reg, pending, tags, r, n, t);
      }
      Shrinks(pending, ready);
      RoundKeepsConsistent(reg, pending, tags, ready);
      RankedCompletes(reg, pending - ready, Updated(reg, tags, ready), r, n + 1);
    }
  }

  lemma {:induction false} RankLater(reg: Registry, pending: set<Tag>, tags: set<Tag>, r: map<Tag, nat>, n: nat, t: Tag)
    requires Consistent(reg, pending, tags) && pending <= r.Keys
    requires forall u :: u in Ready(reg, pending, tags) ==> r[u] == n
    requires Ranking(reg, pending - Ready(reg, pending, tags), Updated(reg, tags, Ready(reg, pending, tags)), r, n + 1)
    requires t in pending - Ready(reg, pending, tags)
    ensures Ranked(reg, pending, tags, r, n, t)
  {
    var ready := Ready(reg, pending, tags);
    var rest, tags' := pending - ready, Updated(reg, tags, ready);
    assert Ranked(reg, rest, tags', r, n + 1, t);
    forall d | d in reg[t].depends ensures Met(reg, pending, tags, r, t, d) {
      assert Met(reg, rest, tags', r, t, d);
    }
    if r[t] > n + 1 {
      var d :| Follows(reg, rest, r, t, d);
      assert Follows(reg, pending, r, t, d);
    } else {
      var d :| d in reg[t].depends && d !in tags;
      assert Met(reg, rest, tags', r, t, d);
      if d in rest { assert Ranked(reg, rest, tags', r, n + 1, d); }
      assert Follows(reg, pending, r, t, d);
    }
  }

  function Extended(r: map<Tag, nat>, pending: set<Tag>, n: nat): map<Tag, nat> {
    map t | t in pending :: if t in r then r[t] else n
  }

  lemma {:induction false} CompletedIsRanked(reg: Registry, pending: set<Tag>, tags: set<Tag>, n: nat) returns (r: map<Tag, nat>)
    requires Consistent(reg, pending, tags) && Migrate(reg, pending, tags).Done?
    ensures r.Keys == pending && Ranking(reg, pending, tags, r, n)
    decreases |pending|
  {
    if pending == {} {
      r := map[];
    } else {
      var ready := Ready(reg, pending, tags);
      Shrinks(pending, ready);
      RoundKeepsConsistent(reg, pending, tags, ready);
      var r' := CompletedIsRanked(reg, pending - ready, Updated(reg, tags, ready), n + 1);
      r := Extended(r', pending, n);
      ExtendedRanks(reg, pending, tags, r', n);
    }
  }

  lemma {:induction false} ExtendedRanks(reg: Registry, pending: set<Tag>, tags: set<Tag>, r: map<Tag, nat>, n: nat)
    requires Consistent(reg, pending, tags) && r.Keys == pending - Ready(reg, pending, tags)
    requires Ranking(reg, pending - Ready(reg, pending, tags), Updated(reg, tags, Ready(reg, pending, tags)), r, n + 1)
    ensures Ranking(reg, pending, tags, Extended(r, pending, n), n)
  {
    var ready := Ready(reg, pending, tags);
    RankingAgrees(reg, pending - ready, Updated(reg, tags, ready), r, Extended(r, pending, n), n + 1);
    RankingExtends(reg, pending, tags, Extended(r, pending, n), n);
  }

  lemma {:induction false} RankingExtends(reg: Registry, pending: set<Tag>, tags: set<Tag>, r: map<Tag, nat>, n: nat)
    requires Consistent(reg, pending, tags) && pending <= r.Keys
    requires forall u :: u in Ready(reg, pending, tags) ==> r[u] == n
    requires Ranking(reg, pending - Ready(reg, pending, tags), Updated(reg, tags, Ready(reg, pending, tags)), r, n + 1)
    ensures Ranking(reg, pending, tags, r, n)
  {
    var ready := Ready(reg, pending, tags);
    forall t | t in pending ensures r[t] >= n {
      if t !in ready { assert Ranked(reg, pending - ready, Updated(reg, tags, ready), r, n + 1, t); }
    }
    forall t | t in pending ensures Ranked(reg, pending, tags, r, n, t) {
      if t !in ready { RankLater(reg, pending, tags, r, n, t); }
    }
  }

  lemma {:induction false} RankingAgrees(reg: Registry, pending: set<Tag>, tags: set<Tag>, r: map<Tag, nat>, q: map<Tag, nat>, n: nat)
    requires pending <= reg.Keys && Ranking(reg, pending, tags, r, n)
    requires pending <= q.Keys && forall t :: t in pending ==> q[t] == r[t]
    ensures Ranking(reg, pending, tags, q, n)
  {
    forall t | t in pending ensures Ranked(reg, pending, tags, q, n, t) {
      assert Ranked(reg, pending, tags, r, n, t);
      forall d | d in reg[t].depends ensures Met(reg, pending, tags, q, t, d) {
        assert Met(reg, pending, tags, r, t, d);
      }
      if r[t] > n {
        var d :| Follows(reg, pending, r, t, d);
        assert Follows(reg, pending, q, t, d);
      }
    }
  }

  /** For every registry and every checkpoint, whatever depends on what: the migration
      completes exactly when the pending tags can be ranked.  A tag's rank lies just
      above the highest pending upgrade it depends on, and it must not exceed the rank
      of any downgraded tag it depends on; every other dependency must be present. */
  lemma {:induction false} CompletesExactlyWhenRanked(reg: Registry, tags: set<Tag>)
    ensures Migrate(reg, ToApply(reg, tags), tags).Done? <==> exists r :: Ranking(reg, ToApply(reg, tags), tags, r, 0)
  {
    var pending := ToApply(reg, tags);
    if Migrate(reg, pending, tags).Done? {
      var r := CompletedIsRanked(reg, pending, tags, 0);
    }
    if r :| Ranking(reg, pending, tags, r, 0) {
      RankedCompletes(reg, pending, tags, r, 0);
    }
  }

  // ---------------------------------------------------------------- depending on a downgraded tag

  lemma {:induction false} RemovedStaysOut(reg: Registry, tags: set<Tag>, rounds: seq<set<Tag>>, d: Tag, i: nat, j: nat)
    requires i < j <= |rounds| && d in rounds[i] && d in Downgrades(reg)
    ensures d !in TagsBefore(reg, tags, rounds, j)
  {
    if i < j - 1 { RemovedStaysOut(reg, tags, rounds, d, i, j - 1); }
  }

  /** The header says that a tag depending on a tag with a downgrader waits until that
      tag has been removed.  No run ever does this: whenever both are applied, the
      dependent tag is applied in the same round or in an earlier one. */
  lemma {:induction false} NeverWaitsForRemoval(reg: Registry, pending: set<Tag>, tags: set<Tag>, t: Tag, d: Tag, i: nat, j: nat)
    requires pending <= reg.Keys && t in reg && d in reg[t].depends && d in Downgrades(reg)
    requires var rounds := Migrate(reg, pending, tags).rounds;
             i < |rounds| && j < |rounds| && d in rounds[i] && t in rounds[j]
    ensures j <= i
  {
    var rounds := Migrate(reg, pending, tags).rounds;
    EveryRun(reg, pending, tags);
    assert RoundRespects(reg, pending, tags, rounds, j);
    if i < j { RemovedStaysOut(reg, tags, rounds, d, i, j); }
  }

  // Waiting one round too long for another dependency is enough to be stuck.
  lemma {:induction false} DowngradeDependencyCanAbort(reg: Registry)
    requires reg == map["d" := Upgrader(Downgrade, [], []), "u" := Upgrader(Upgrade, [], []),
                        "t" := Upgrader(Upgrade, ["d", "u"], [])]
    ensures DependsKnown(reg)
    ensures Migrate(reg, ToApply(reg, {"d"}), {"d"}).Aborted?
    ensures !exists c :: Cycle(reg, ToApply(reg, {"d"}), c)
  {
    assert "d"[0] != "u"[0] && "d"[0] != "t"[0] && "u"[0] != "t"[0];
    var pending := ToApply(reg, {"d"});
    assert pending == {"d", "u", "t"};
    var ready := Ready(reg, pending, {"d"});
    assert reg["t"].depends[1] == "u" && "u" in reg["t"].depends;
    assert IsReady(reg["d"], {"d"}) && IsReady(reg["u"], {"d"}) && !IsReady(reg["t"], {"d"});
    assert ready == {"d", "u"};
    var tags := Updated(reg, {"d"}, ready);
    assert tags == {"u"} && pending - ready == {"t"};
    assert reg["t"].depends[0] == "d" && "d" in reg["t"].depends;
    assert !IsReady(reg["t"], tags);
    assert Ready(reg, {"t"}, tags) == {};
    assert Migrate(reg, {"t"}, tags).Aborted?;
    forall c ensures !Cycle(reg, pending, c) {
      if |c| > 1 && Chain(reg, pending, c) { assert c[1] in reg[c[0]].depends; }
    }
  }

  // ---------------------------------------------------------------- the program

  // What holds at the head of the outer loop, `start` being the tags it began with.
  ghost predicate BetweenRounds(reg: Registry, tags: set<Tag>, start: set<Tag>, pending: set<Tag>, cur: set<Tag>,
                                rounds: seq<set<Tag>>, log: seq<Tag>)
    requires start <= reg.Keys
  {
    && pending <= start
    && Prefixed(rounds, Migrate(reg, pending, cur)) == Migrate(reg, start, tags)
    && LogValid(reg, tags, log)
    && Listed(log) == start - pending
    && cur <= tags + Listed(log)
  }

  lemma {:induction false} BetweenRoundsStep(reg: Registry, tags: set<Tag>, start: set<Tag>, pending: set<Tag>, cur: set<Tag>,
                          rounds: seq<set<Tag>>, log: seq<Tag>, cur': set<Tag>, log': seq<Tag>)
    requires start <= reg.Keys && BetweenRounds(reg, tags, start, pending, cur, rounds, log)
    requires Ready(reg, pending, cur) != {}
    requires InRound(reg, tags, cur, Ready(reg, pending, cur), {}, log, cur', log')
    ensures BetweenRounds(reg, tags, start, pending - Ready(reg, pending, cur), cur',
                          rounds + [Ready(reg, pending, cur)], log')
  {
    var ready := Ready(reg, pending, cur);
    assert ready - {} == ready;
    assert Migrate(reg, pending, cur) == After(ready, Migrate(reg, pending - ready, Updated(reg, cur, ready)));
    assert cur' <= cur + ready;
  }

  /** The checkpoint being migrated, as far as its tags go. */
  class Checkpoint {
    var tags: set<Tag>

    constructor (tags: set<Tag>)
      ensures this.tags == tags
    {
      this.tags := tags;
    }

    // Upgrader.update on the tag set; removing an absent tag would raise.
    method Update(reg: Registry, t: Tag)
      requires t in reg && (reg[t].kind.Downgrade? ==> t in tags)
      modifies this
      ensures tags == Updated(reg, old(tags), {t})
    {
      UpdatedStep(reg, tags, {}, t);
      assert {} + {t} == {t};
      if reg[t].kind.Upgrade? {
        tags := tags + {t};
      } else {
        tags := tags - {t};
      }
    }

    // The inner loop: one update per ready tag, in any order.
    method ApplyRound(reg: Registry, ghost start: set<Tag>, ghost pending: set<Tag>, ready: set<Tag>, log: seq<Tag>)
      returns (log': seq<Tag>)
      requires Consistent(reg, pending, tags) && ready == Ready(reg, pending, tags)
      requires LogValid(reg, start, log) && ready !! Listed(log) && tags <= start + Listed(log)
      modifies this
      ensures InRound(reg, start, old(tags), ready, {}, log, tags, log')
      ensures tags == Updated(reg, old(tags), ready)
    {
      log' := log;
      ghost var cur := tags;
      var rest := ready;
      while rest != {}
        invariant InRound(reg, start, cur, ready, rest, log, tags, log')
        decreases |rest|
      {
        var t :| t in rest;
        InRoundStep(reg, start, pending, cur, rest, log, tags, log', t);
        Update(reg, t);
        log' := log' + [t];
        rest := rest - {t};
      }
      assert ready - rest == ready;
    }

    /** process_file's loop, with the members of each ready set visited in any order.
        `log` is the order in which the updates ran: each tag once, and after every
        dependency that the checkpoint did not have. */
    method Process(reg: Registry) returns (o: Outcome, log: seq<Tag>)
      modifies this
      ensures o == Migrate(reg, ToApply(reg, old(tags)), old(tags)) && tags == o.tags
      ensures LogValid(reg, old(tags), log)
      ensures Listed(log) == ToApply(reg, old(tags)) - (if o.Done? then {} else o.stuck)
      ensures o.Done? ==> tags == old(tags) + Upgrades(reg) - Downgrades(reg)
    {
      var pending := ToApply(reg, tags);
      ghost var start, first := pending, tags;
      log := [];
      var rounds := [];
      LoopStarts(reg, pending, tags);
      while pending != {}
        invariant Consistent(reg, pending, tags)
        invariant BetweenRounds(reg, first, start, pending, tags, rounds, log)
        decreases |pending|
      {
        var ready := Ready(reg, pending, tags);
        if ready == {} {
          o := Aborted(tags, rounds, pending);
          LoopEnds(reg, first, start, pending, tags, rounds, log);
          return;
        }
        ghost var cur := tags;
        var log' := ApplyRound(reg, first, pending, ready, log);
        BetweenRoundsStep(reg, first, start, pending, cur, rounds, log, tags, log');
        RoundKeepsConsistent(reg, pending, cur, ready);
        Shrinks(pending, ready);
        log, rounds, pending := log', rounds + [ready], pending - ready;
      }
      o := Done(tags, rounds);
      LoopEnds(reg, first, start, pending, tags, rounds, log);
    }
  }

  lemma {:induction false} LoopStarts(reg: Registry, pending: set<Tag>, tags: set<Tag>)
    requires pending <= reg.Keys
    ensures BetweenRounds(reg, tags, pending, pending, tags, [], [])
  {
    var o := Migrate(reg, pending, tags);
    assert [] + o.rounds == o.rounds;
    assert Listed([]) == pending - pending;
  }

  lemma {:induction false} LoopEnds(reg: Registry, tags: set<Tag>, start: set<Tag>, pending: set<Tag>, cur: set<Tag>,
                                    rounds: seq<set<Tag>>, log: seq<Tag>)
    requires Consistent(reg, start, tags) && BetweenRounds(reg, tags, start, pending, cur, rounds, log)
    requires Ready(reg, pending, cur) == {}
    ensures Migrate(reg, start, tags) == if pending == {} then Done(cur, rounds) else Aborted(cur, rounds, pending)
    ensures pending == {} ==> cur == tags + Upgrades(reg) - Downgrades(reg)
  {
    assert rounds + [] == rounds;
    FinalTags(reg, start, tags);
  }

  function Prefixed(rounds: seq<set<Tag>>, o: Outcome): Outcome {
    o.(rounds := rounds + o.rounds)
  }

  function Listed(log: seq<Tag>): set<Tag> { set t | t in log }

  // No tag twice, and none before a dependency the checkpoint did not have.
  ghost predicate LogValid(reg: Registry, tags: set<Tag>, log: seq<Tag>) {
    && (forall i, j :: 0 <= i < j < |log| ==> log[i] != log[j])
    && (forall j, d :: 0 <= j < |log| && log[j] in reg && d in reg[log[j]].depends && d !in tags ==> d in log[..j])
  }

  lemma {:induction false} LogExtends(reg: Registry, tags: set<Tag>, log: seq<Tag>, t: Tag)
    requires LogValid(reg, tags, log) && t in reg && t !in log
    requires forall d :: d in reg[t].depends ==> d in tags || d in log
    ensures LogValid(reg, tags, log + [t])
  {
    var l := log + [t];
    forall j, d | 0 <= j < |l| && l[j] in reg && d in reg[l[j]].depends && d !in tags ensures d in l[..j] {
      if j < |log| { assert l[..j] == log[..j] && l[j] == log[j]; } else { assert l[..j] == log; }
    }
  }

  // What holds inside a round once all of `ready` but `rest` has been updated.
  ghost predicate InRound(reg: Registry, tags: set<Tag>, cur: set<Tag>, ready: set<Tag>, rest: set<Tag>,
                          log: seq<Tag>, cur': set<Tag>, log': seq<Tag>) {
    && rest <= ready
    && cur' == Updated(reg, cur, ready - rest)
    && LogValid(reg, tags, log')
    && Listed(log') == Listed(log) + (ready - rest)
  }

  lemma {:induction false} InRoundStep(reg: Registry, tags: set<Tag>, pending: set<Tag>, cur: set<Tag>, rest: set<Tag>,
                    log: seq<Tag>, cur': set<Tag>, log': seq<Tag>, t: Tag)
    requires pending <= reg.Keys && t in rest
    requires Listed(log) !! Ready(reg, pending, cur) && cur <= tags + Listed(log)
    requires InRound(reg, tags, cur, Ready(reg, pending, cur), rest, log, cur', log')
    ensures InRound(reg, tags, cur, Ready(reg, pending, cur), rest - {t}, log, Updated(reg, cur', {t}), log' + [t])
  {
    var ready := Ready(reg, pending, cur);
    assert t !in Listed(log');
    LogExtends(reg, tags, log', t);
    assert ready - (rest - {t}) == (ready - rest) + {t};
    UpdatedStep(reg, cur, ready - rest, t);
    UpdatedStep(reg, cur', {}, t);
    assert {} + {t} == {t};
  }

  lemma {:induction false} UpdatedStep(reg: Registry, cur: set<Tag>, done: set<Tag>, t: Tag)
    requires t in reg
    ensures Updated(reg, cur, done + {t}) ==
            if reg[t].kind.Upgrade? then Updated(reg, cur, done) + {t} else Updated(reg, cur, done) - {t}
  {
    assert t in Upgrades(reg) <==> reg[t].kind.Upgrade?;
    assert t in Downgrades(reg) <==> reg[t].kind.Downgrade?;
    assert Upgrades(reg) !! Downgrades(reg);
  }

  // ---------------------------------------------------------------- loading the upgraders

  // `now` is `was` with the forward dependencies of the tags in `from` turned around.
  ghost predicate Resolved(was: Registry, now: Registry, from: set<Tag>) {
    now.Keys == was.Keys
    && forall t {:trigger TagResolved(was, now, from, t)} :: t in was ==> TagResolved(was, now, from, t)
  }

  ghost predicate TagResolved(was: Registry, now: Registry, from: set<Tag>, t: Tag)
    requires t in was && t in now
  {
    && now[t].kind == was[t].kind && now[t].fwdDepends == was[t].fwdDepends
    && forall d :: d in now[t].depends <==> d in was[t].depends || (d in from && d in was && t in was[d].fwdDepends)
  }

  ghost predicate TagKnown(reg: Registry, t: Tag)
    requires t in reg
  {
    (forall f :: f in reg[t].fwdDepends ==> f in reg) && (forall d :: d in reg[t].depends ==> d in reg)
  }

  // One step of the inner loop: fd now depends on t.
  function AddDepend(reg: Registry, fd: Tag, t: Tag): Registry
    requires fd in reg
  {
    reg[fd := reg[fd].(depends := reg[fd].depends + [t])]
  }

  // Like Resolved, with only the first k forward dependencies of t turned around.
  ghost predicate PartlyResolved(was: Registry, now: Registry, from: set<Tag>, t: Tag, k: nat)
    requires t in was && k <= |was[t].fwdDepends|
  {
    now.Keys == was.Keys
    && forall u {:trigger TagPartlyResolved(was, now, from, t, k, u)} :: u in was ==>
         TagPartlyResolved(was, now, from, t, k, u)
  }

  ghost predicate TagPartlyResolved(was: Registry, now: Registry, from: set<Tag>, t: Tag, k: nat, u: Tag)
    requires t in was && k <= |was[t].fwdDepends| && u in was && u in now
  {
    && now[u].kind == was[u].kind && now[u].fwdDepends == was[u].fwdDepends
    && forall d :: d in now[u].depends <==>
         d in was[u].depends || (d in from && d in was && u in was[d].fwdDepends)
         || (d == t && u in was[t].fwdDepends[..k])
  }

  lemma {:induction false} PartlyResolvedStart(was: Registry, now: Registry, from: set<Tag>, t: Tag)
    requires t in was && Resolved(was, now, from)
    ensures PartlyResolved(was, now, from, t, 0)
  {
    forall u | u in was ensures TagPartlyResolved(was, now, from, t, 0, u) {
      assert TagResolved(was, now, from, u);
    }
  }

  lemma {:induction false} AddDependStep(was: Registry, now: Registry, from: set<Tag>, t: Tag, k: nat)
    requires t in was && k < |was[t].fwdDepends| && was[t].fwdDepends[k] in was
    requires PartlyResolved(was, now, from, t, k)
    ensures PartlyResolved(was, AddDepend(now, was[t].fwdDepends[k], t), from, t, k + 1)
  {
    var fwd := was[t].fwdDepends;
    assert fwd[..k + 1] == fwd[..k] + [fwd[k]];
    forall u | u in was ensures TagPartlyResolved(was, AddDepend(now, fwd[k], t), from, t, k + 1, u) {
      assert TagPartlyResolved(was, now, from, t, k, u);
    }
  }

  lemma {:induction false} FullyResolved(was: Registry, now: Registry, from: set<Tag>, t: Tag)
    requires t in was && PartlyResolved(was, now, from, t, |was[t].fwdDepends|)
    ensures Resolved(was, now, from + {t})
  {
    var fwd := was[t].fwdDepends;
    assert fwd[..|fwd|] == fwd;
    forall u | u in was ensures TagResolved(was, now, from + {t}, u) {
      assert TagPartlyResolved(was, now, from, t, |fwd|, u);
    }
  }

  ghost predicate AllKnown(reg: Registry, tags: set<Tag>)
    requires tags <= reg.Keys
  {
    forall t {:trigger TagKnown(reg, t)} :: t in tags ==> TagKnown(reg, t)
  }

  lemma {:induction false} NothingResolved(reg: Registry)
    ensures Resolved(reg, reg, {})
  {
    forall t | t in reg ensures TagResolved(reg, reg, {}, t) {
    }
  }

  /** Upgrader.by_tag, whose entries load_all updates in place. */
  class Upgraders {
    var byTag: Registry

    constructor (reg: Registry)
      ensures byTag == reg
    {
      byTag := reg;
    }

    // The body of the loop for tag t; `was` is the registry the loop began with.
    method LoadTag(ghost was: Registry, ghost from: set<Tag>, t: Tag) returns (bad: bool)
      requires t in was && from <= was.Keys && Resolved(was, byTag, from)
      modifies this
      ensures bad <==> !TagKnown(was, t)
      ensures !bad ==> Resolved(was, byTag, from + {t})
    {
      PartlyResolvedStart(was, byTag, from, t);
      assert TagResolved(was, byTag, from, t);
      var fwd := byTag[t].fwdDepends;
      for k := 0 to |fwd|
        invariant PartlyResolved(was, byTag, from, t, k)
        invariant forall i :: 0 <= i < k ==> fwd[i] in was
      {
        if fwd[k] !in byTag {
          return true;
        }
        AddDependStep(was, byTag, from, t, k);
        byTag := AddDepend(byTag, fwd[k], t);
      }
      FullyResolved(was, byTag, from, t);
      bad := Unknown(byTag[t].depends, byTag);
      AuditCovers(was, byTag, from + {t}, t);
    }

    /** load_all's loop over the registered tags, visited in any order: it succeeds
        exactly when every named tag exists, and then each tag depends on what it
        named and on the tags that named it as a forward dependency. */
    method LoadAll() returns (ok: bool)
      modifies this
      ensures ok <==> AllKnown(old(byTag), old(byTag).Keys)
      ensures ok ==> Resolved(old(byTag), byTag, old(byTag).Keys) && DependsKnown(byTag)
    {
      ghost var was := byTag;
      var all := byTag.Keys;
      var rest := all;
      NothingResolved(was);
      assert all - rest == {};
      while rest != {}
        invariant rest <= all == was.Keys
        invariant Resolved(was, byTag, all - rest)
        invariant AllKnown(was, all - rest)
        decreases |rest|
      {
        var t :| t in rest;
        var bad := LoadTag(was, all - rest, t);
        if bad {
          return false;
        }
        assert all - (rest - {t}) == (all - rest) + {t};
        rest := rest - {t};
      }
      assert all - rest == all;
      ResolvedKnown(was, byTag);
      ok := true;
    }
  }

  lemma {:induction false} ResolvedKnown(reg: Registry, now: Registry)
    requires Resolved(reg, now, reg.Keys) && AllKnown(reg, reg.Keys)
    ensures DependsKnown(now)
  {
    forall t, d | t in now && d in now[t].depends ensures d in now {
      assert TagKnown(reg, t) && TagResolved(reg, now, reg.Keys, t);
    }
  }

  method Unknown(names: seq<Tag>, reg: Registry) returns (bad: bool)
    ensures bad <==> exists d :: d in names && d !in reg
  {
    for k := 0 to |names|
      invariant forall i :: 0 <= i < k ==> names[i] in reg
    {
      if names[k] !in reg {
        return true;
      }
    }
    bad := false;
  }

  lemma {:induction false} AuditCovers(reg: Registry, now: Registry, from: set<Tag>, t: Tag)
    requires t in reg && from <= reg.Keys && Resolved(reg, now, from)
    ensures (exists d :: d in now[t].depends && d !in now) <==> exists d :: d in reg[t].depends && d !in reg
  {
    assert TagResolved(reg, now, from, t);
  }
}

/** Repeated CPU switching (repeatSwitch and the set-up of its list in
    configs/common/Simulation.py). */
module CpuSwitch {
  import opened SimControl

  datatype Bank = Main | Switch | Repeat
  datatype Cpu = Cpu(bank: Bank, id: nat)
  datatype Pair = Pair(outgoing: Cpu, incoming: Cpu)

  ghost function Olds(list: seq<Pair>): set<Cpu> { set p | p in list :: p.outgoing }
  ghost function News(list: seq<Pair>): set<Cpu> { set p | p in list :: p.incoming }

  // The checks of m5.switchCpus: each old CPU is running, each new one is switched out.
  predicate Accepts(list: seq<Pair>, active: set<Cpu>) {
    forall p :: p in list ==> p.outgoing in active && p.incoming !in active
  }

  function Remove(list: seq<Pair>, active: set<Cpu>): set<Cpu> {
    if list == [] then active else Remove(list[..|list| - 1], active) - {list[|list| - 1].outgoing}
  }

  function Add(list: seq<Pair>, active: set<Cpu>): set<Cpu> {
    if list == [] then active else Add(list[..|list| - 1], active) + {list[|list| - 1].incoming}
  }

  // Who runs after the hand-over: all old CPUs are switched out, then the new ones take over.
  function Handover(list: seq<Pair>, active: set<Cpu>): set<Cpu> { Add(list, Remove(list, active)) }

  // the tuples turned around
  function Swap(list: seq<Pair>): seq<Pair> {
    if list == [] then [] else Swap(list[..|list| - 1]) + [Pair(list[|list| - 1].incoming, list[|list| - 1].outgoing)]
  }

  datatype Step = Step(requested: nat, done: nat, before: set<Cpu>, after: set<Cpu>)

  datatype Status = Ended(cause: Cause) | NegativeTicks | BadSwitch

  datatype Trace = Trace(steps: seq<Step>, sim: Sim, status: Status)

  function Room(s: Sim, maxtick: int): nat { if maxtick > s.tick then maxtick - s.tick else 0 }

  function RepeatSwitch(s: Sim, list: seq<Pair>, active: set<Cpu>, freq: nat, maxtick: int): Trace
    requires freq > 0
    decreases Room(s, maxtick)
  {
    var e := Simulate(s, freq);
    if !e.cause.Limit? then Trace([], e.sim, Ended(e.cause))
    else if !Accepts(list, active) then Trace([], e.sim, BadSwitch)
    else
      var s', active' := Drain(e.sim), Handover(list, active);
      var step := Step(e.sim.tick, s'.tick, active, active');
      if maxtick - s'.tick <= freq then
        if maxtick < s'.tick then Trace([step], s', NegativeTicks)
        else var f := Simulate(s', maxtick - s'.tick); Trace([step], f.sim, Ended(f.cause))
      else
        var t := RepeatSwitch(s', Swap(list), active', freq, maxtick);
        t.(steps := [step] + t.steps)
  }

  // ---------------------------------------------------------------- hand-overs

  lemma {:induction false} RemoveMembers(list: seq<Pair>, active: set<Cpu>)
    ensures Remove(list, active) == active - Olds(list)
  {
    if list != [] {
      var t, l := list[..|list| - 1], list[|list| - 1];
      RemoveMembers(t, active);
      assert forall p :: p in list <==> p in t || p == l;
      assert Olds(list) == Olds(t) + {l.outgoing};
    }
  }

  lemma {:induction false} AddMembers(list: seq<Pair>, active: set<Cpu>)
    ensures Add(list, active) == active + News(list)
  {
    if list != [] {
      var t, l := list[..|list| - 1], list[|list| - 1];
      AddMembers(t, active);
      assert forall p :: p in list <==> p in t || p == l;
      assert News(list) == News(t) + {l.incoming};
    }
  }

  lemma {:induction false} SwapMembers(list: seq<Pair>)
    ensures forall p :: p in Swap(list) <==> Pair(p.incoming, p.outgoing) in list
    ensures Olds(Swap(list)) == News(list) && News(Swap(list)) == Olds(list)
  {
    if list != [] {
      var t, l := list[..|list| - 1], list[|list| - 1];
      SwapMembers(t);
      forall p ensures p in Swap(list) <==> Pair(p.incoming, p.outgoing) in list {
        assert p in Swap(list) <==> p in Swap(t) || p == Pair(l.incoming, l.outgoing);
      }
      assert forall p :: p in list <==> p in t || p == l;
      assert Olds(list) == Olds(t) + {l.outgoing} && News(list) == News(t) + {l.incoming};
      assert forall p :: p in Swap(list) <==> p in Swap(t) || p == Pair(l.incoming, l.outgoing);
      assert Olds(Swap(list)) == Olds(Swap(t)) + {l.incoming} && News(Swap(list)) == News(Swap(t)) + {l.outgoing};
    }
  }

  // The list hands over from exactly the running CPUs to CPUs that are switched out.
  ghost predicate Exact(list: seq<Pair>, active: set<Cpu>) {
    Olds(list) == active && News(list) !! active
  }

  lemma {:induction false} ExactHandover(list: seq<Pair>, active: set<Cpu>)
    requires Exact(list, active)
    ensures Accepts(list, active) && Handover(list, active) == News(list)
    ensures Exact(Swap(list), Handover(list, active))
  {
    RemoveMembers(list, active);
    AddMembers(list, Remove(list, active));
    SwapMembers(list);
    forall p | p in list ensures p.outgoing in active && p.incoming !in active {
      assert p.outgoing in Olds(list) && p.incoming in News(list);
    }
  }

  // Even steps go from a to b, odd ones back.
  ghost predicate Alternates(steps: seq<Step>, a: set<Cpu>, b: set<Cpu>) {
    forall k :: 0 <= k < |steps| ==>
      steps[k].before == (if k % 2 == 0 then a else b) && steps[k].after == (if k % 2 == 0 then b else a)
  }

  lemma {:induction false} AlternatesCons(step: Step, rest: seq<Step>, a: set<Cpu>, b: set<Cpu>)
    requires step.before == a && step.after == b && Alternates(rest, b, a)
    ensures Alternates([step] + rest, a, b)
  {
    var t := [step] + rest;
    forall k | 0 <= k < |t|
      ensures t[k].before == (if k % 2 == 0 then a else b) && t[k].after == (if k % 2 == 0 then b else a)
    {
      if k > 0 { assert t[k] == rest[k - 1]; }
    }
  }

  /** In every run each switch hands over from exactly the running CPUs to the
      switched-out ones and back again, and m5.switchCpus never refuses. */
  lemma {:induction false} HandoversAlternate(s: Sim, list: seq<Pair>, active: set<Cpu>, freq: nat, maxtick: int)
    requires freq > 0 && Exact(list, active)
    ensures var t := RepeatSwitch(s, list, active, freq, maxtick);
            Alternates(t.steps, active, News(list)) && !t.status.BadSwitch?
    decreases Room(s, maxtick)
  {
    var e := Simulate(s, freq);
    ThereAndBack(list, active);
    if e.cause.Limit? {
      var s', active' := Drain(e.sim), News(list);
      var step := Step(e.sim.tick, s'.tick, active, active');
      if maxtick - s'.tick > freq {
        HandoversAlternate(s', Swap(list), active', freq, maxtick);
        AlternatesCons(step, RepeatSwitch(s', Swap(list), active', freq, maxtick).steps, active, active');
      } else {
        AlternatesCons(step, [], active, active');
      }
    }
  }

  lemma {:induction false} ThereAndBack(list: seq<Pair>, active: set<Cpu>)
    requires Exact(list, active)
    ensures Accepts(list, active) && Handover(list, active) == News(list)
    ensures Exact(Swap(list), News(list)) && News(Swap(list)) == active
  {
    ExactHandover(list, active);
    SwapMembers(list);
  }

  // One hand-over leaves the CPUs as the next, with the pairs turned around, wants them.
  lemma {:induction false} AcceptedAgain(list: seq<Pair>, active: set<Cpu>)
    requires Accepts(list, active)
    ensures Accepts(Swap(list), Handover(list, active)) && (list != [] ==> Swap(list) != [])
  {
    var after := Handover(list, active);
    RemoveMembers(list, active);
    AddMembers(list, Remove(list, active));
    SwapMembers(list);
    forall p | p in Swap(list) ensures p.outgoing in after && p.incoming !in after {
      var q := Pair(p.incoming, p.outgoing);
      assert q in list && q.incoming in News(list) && q.outgoing in Olds(list);
    }
  }

  /** For any pairs and any running CPUs, m5.switchCpus refuses exactly if the first period
      runs to its limit and some pair hands over from a CPU that is not running or to one
      that is; it never refuses a later switch. */
  lemma {:induction false} RefusedExactly(s: Sim, list: seq<Pair>, active: set<Cpu>, freq: nat, maxtick: int)
    requires freq > 0 && list != []
    ensures RepeatSwitch(s, list, active, freq, maxtick).status.BadSwitch? <==>
            && s.replies != [] && s.replies[0].cause.Limit?
            && exists p :: p in list && (p.outgoing !in active || p.incoming in active)
    decreases Room(s, maxtick)
  {
    var e := Simulate(s, freq);
    if e.cause.Limit? && Accepts(list, active) {
      var next := Drain(e.sim);
      AcceptedAgain(list, active);
      if maxtick - next.tick > freq { RefusedExactly(next, Swap(list), Handover(list, active), freq, maxtick); }
    }
  }

  // ---------------------------------------------------------------- time

  // Switch k comes at least k + 1 periods after the start and not after maxtick.
  ghost predicate InTime(steps: seq<Step>, start: nat, freq: nat, maxtick: int) {
    forall k :: 0 <= k < |steps| ==> StepInTime(steps, k, start, freq, maxtick)
  }

  ghost predicate StepInTime(steps: seq<Step>, k: nat, start: nat, freq: nat, maxtick: int)
    requires k < |steps|
  {
    Grid(start + freq, freq, k) <= steps[k].requested <= steps[k].done && steps[k].requested <= maxtick
  }

  lemma {:induction false} GridMonotone(a: nat, b: nat, freq: nat, k: nat)
    requires a <= b
    ensures Grid(a, freq, k) <= Grid(b, freq, k)
  {
    if k > 0 { GridMonotone(a, b, freq, k - 1); }
  }

  lemma {:induction false} InTimeCons(step: Step, rest: seq<Step>, start: nat, freq: nat, maxtick: int)
    requires start + freq <= step.requested <= step.done && step.requested <= maxtick
    requires InTime(rest, step.done, freq, maxtick)
    ensures InTime([step] + rest, start, freq, maxtick)
  {
    var t := [step] + rest;
    forall k | 0 <= k < |t| ensures StepInTime(t, k, start, freq, maxtick) {
      if k > 0 {
        assert t[k] == rest[k - 1] && StepInTime(rest, k - 1, step.done, freq, maxtick);
        GridShift(start + freq, freq, k - 1);
        GridMonotone(start + freq + freq, step.done + freq, freq, k - 1);
      }
    }
  }

  // ---------------------------------------------------------------- the tick of each switch

  // When switch k is asked for and when it is done, read off the script alone.
  function AskedAt(s: Sim, freq: nat, k: nat): nat { Grid(s.tick + freq, freq, k) + Delays(s.drains, k) }

  function DoneAt(s: Sim, freq: nat, k: nat): nat { AskedAt(s, freq, k) + Delay(s.drains, k) }

  // The guest lets switch k happen, and after each earlier one more than a period is left.
  ghost predicate Reached(s: Sim, freq: nat, maxtick: int, k: nat) {
    k < Limits(s.replies) && forall j: nat :: j < k ==> DoneAt(s, freq, j) + freq < maxtick
  }

  // Switch k is reached, and draining for it passes maxtick.
  ghost predicate Overruns(s: Sim, freq: nat, maxtick: int, k: nat) {
    Reached(s, freq, maxtick, k) && DoneAt(s, freq, k) > maxtick
  }

  // The steps are those of the script.
  ghost predicate OnScript(steps: seq<Step>, s: Sim, freq: nat, maxtick: int) {
    && (forall k: nat :: k < |steps| <==> Reached(s, freq, maxtick, k))
    && (forall k :: 0 <= k < |steps| ==>
          steps[k].requested == AskedAt(s, freq, k) && steps[k].done == DoneAt(s, freq, k))
  }

  lemma {:induction false} GridAdd(a: nat, d: nat, period: nat, k: nat)
    ensures Grid(a + d, period, k) == Grid(a, period, k) + d
  {
    if k > 0 { GridAdd(a, d, period, k - 1); }
  }

  lemma {:induction false} DelaysShift(drains: seq<nat>, k: nat)
    ensures Delays(drains, k + 1) == Delay(drains, 0) + Delays(Rest(drains, 1), k)
    ensures Delay(drains, k + 1) == Delay(Rest(drains, 1), k)
  {
    if k > 0 { DelaysShift(drains, k - 1); }
  }

  // The state after the first switch of s.
  ghost predicate After(s: Sim, freq: nat, next: Sim) {
    Simulate(s, freq).cause.Limit? && next == Drain(Simulate(s, freq).sim)
  }

  lemma {:induction false} AfterFirst(s: Sim, freq: nat, next: Sim)
    requires After(s, freq, next)
    ensures Limits(s.replies) == Limits(next.replies) + 1
    ensures AskedAt(s, freq, 0) == s.tick + freq && DoneAt(s, freq, 0) == next.tick
    ensures next.drains == Rest(s.drains, 1)
  {
  }

  lemma {:induction false} ScriptShift(s: Sim, freq: nat, next: Sim, k: nat)
    requires After(s, freq, next)
    ensures AskedAt(s, freq, k + 1) == AskedAt(next, freq, k) && DoneAt(s, freq, k + 1) == DoneAt(next, freq, k)
  {
    AfterFirst(s, freq, next);
    DelaysShift(s.drains, k);
    GridShift(s.tick + freq, freq, k);
    GridAdd(s.tick + freq + freq, Delay(s.drains, 0), freq, k);
  }

  lemma {:induction false} ReachedShift(s: Sim, freq: nat, maxtick: int, next: Sim, k: nat)
    requires After(s, freq, next)
    ensures Reached(s, freq, maxtick, k + 1) <==> next.tick + freq < maxtick && Reached(next, freq, maxtick, k)
  {
    AfterFirst(s, freq, next);
    forall j: nat ensures DoneAt(s, freq, j + 1) == DoneAt(next, freq, j) { ScriptShift(s, freq, next, j); }
    if Reached(s, freq, maxtick, k + 1) {
      forall j: nat | j < k ensures DoneAt(next, freq, j) + freq < maxtick {
        assert DoneAt(s, freq, j + 1) + freq < maxtick;
      }
    } else if next.tick + freq < maxtick && Reached(next, freq, maxtick, k) {
      forall j: nat | j < k + 1 ensures DoneAt(s, freq, j) + freq < maxtick {
        if j > 0 { assert DoneAt(next, freq, j - 1) + freq < maxtick; }
      }
    }
  }

  lemma {:induction false} OnScriptLast(step: Step, s: Sim, freq: nat, maxtick: int, next: Sim)
    requires After(s, freq, next) && next.tick + freq >= maxtick
    requires step.requested == s.tick + freq && step.done == next.tick
    ensures OnScript([step], s, freq, maxtick)
    ensures (exists k: nat :: Overruns(s, freq, maxtick, k)) <==> next.tick > maxtick
  {
    AfterFirst(s, freq, next);
    forall k: nat ensures k < 1 <==> Reached(s, freq, maxtick, k) {
      if k > 0 { ReachedShift(s, freq, maxtick, next, k - 1); }
    }
    assert Overruns(s, freq, maxtick, 0) <==> next.tick > maxtick;
  }

  lemma {:induction false} OnScriptCons(step: Step, rest: seq<Step>, s: Sim, freq: nat, maxtick: int, next: Sim)
    requires After(s, freq, next) && next.tick + freq < maxtick
    requires step.requested == s.tick + freq && step.done == next.tick
    requires OnScript(rest, next, freq, maxtick)
    ensures OnScript([step] + rest, s, freq, maxtick)
  {
    AfterFirst(s, freq, next);
    var t := [step] + rest;
    forall k: nat ensures k < |t| <==> Reached(s, freq, maxtick, k) {
      if k > 0 { ReachedShift(s, freq, maxtick, next, k - 1); }
    }
    forall k | 0 <= k < |t| ensures t[k].requested == AskedAt(s, freq, k) && t[k].done == DoneAt(s, freq, k) {
      if k > 0 {
        ScriptShift(s, freq, next, k - 1);
        assert t[k] == rest[k - 1];
      }
    }
  }

  lemma {:induction false} OverrunsShift(s: Sim, freq: nat, maxtick: int, next: Sim, k: nat)
    requires After(s, freq, next) && next.tick + freq < maxtick
    ensures !Overruns(s, freq, maxtick, 0)
    ensures Overruns(s, freq, maxtick, k + 1) <==> Overruns(next, freq, maxtick, k)
  {
    AfterFirst(s, freq, next);
    ScriptShift(s, freq, next, k);
    ReachedShift(s, freq, maxtick, next, k);
  }

  lemma {:induction false} SomeOverrunShift(s: Sim, freq: nat, maxtick: int, next: Sim)
    requires After(s, freq, next) && next.tick + freq < maxtick
    ensures (exists k: nat :: Overruns(s, freq, maxtick, k)) <==> (exists k: nat :: Overruns(next, freq, maxtick, k))
  {
    if k: nat :| Overruns(s, freq, maxtick, k) {
      OverrunsShift(s, freq, maxtick, next, if k > 0 then k - 1 else 0);
    } else if k: nat :| Overruns(next, freq, maxtick, k) {
      OverrunsShift(s, freq, maxtick, next, k);
    }
  }

  // The cause of reply k; a script that is used up counts as an exit by the guest.
  function CauseAt(r: seq<Reply>, k: nat): Cause { if k < |r| then r[k].cause else Other }

  /** Every run takes exactly the switches its script reaches, each at its tick, passes a
      negative tick count exactly if draining for one of them passes maxtick, and
      otherwise ends with the cause of the reply after the last switch. */
  lemma {:induction false} EverySwitchOnScript(s: Sim, list: seq<Pair>, active: set<Cpu>, freq: nat, maxtick: int)
    requires freq > 0 && Exact(list, active)
    ensures var t := RepeatSwitch(s, list, active, freq, maxtick);
            && OnScript(t.steps, s, freq, maxtick)
            && (t.status.NegativeTicks? <==> exists k: nat :: Overruns(s, freq, maxtick, k))
            && (t.status.Ended? ==> t.status.cause == CauseAt(s.replies, |t.steps|))
    decreases Room(s, maxtick)
  {
    ThereAndBack(list, active);
    var e := Simulate(s, freq);
    if e.cause.Limit? {
      var next := Drain(e.sim);
      var step := Step(e.sim.tick, next.tick, active, News(list));
      if maxtick - next.tick > freq {
        EverySwitchOnScript(next, Swap(list), News(list), freq, maxtick);
        OnScriptCons(step, RepeatSwitch(next, Swap(list), News(list), freq, maxtick).steps, s, freq, maxtick, next);
        SomeOverrunShift(s, freq, maxtick, next);
      } else {
        OnScriptLast(step, s, freq, maxtick, next);
      }
    }
  }

  /** The same in numbers: switch k is asked for k + 1 periods and k drains after the
      start and is done one drain later. */
  lemma {:induction false} SwitchTicks(s: Sim, list: seq<Pair>, active: set<Cpu>, freq: nat, maxtick: int, k: nat)
    requires freq > 0 && Exact(list, active) && k < |RepeatSwitch(s, list, active, freq, maxtick).steps|
    ensures var step := RepeatSwitch(s, list, active, freq, maxtick).steps[k];
            && step.requested == s.tick + (k + 1) * freq + Delays(s.drains, k)
            && step.done == s.tick + (k + 1) * freq + Delays(s.drains, k + 1)
  {
    EverySwitchOnScript(s, list, active, freq, maxtick);
    GridIsLinear(s.tick + freq, freq, k);
    assert (k + 1) * freq == k * freq + freq;
  }

  // If one period fits before maxtick at entry, only a drain can take the run past maxtick.
  lemma {:induction false} RequestsInTime(s: Sim, list: seq<Pair>, active: set<Cpu>, freq: nat, maxtick: int)
    requires freq > 0 && s.tick + freq <= maxtick
    ensures var t := RepeatSwitch(s, list, active, freq, maxtick);
            && InTime(t.steps, s.tick, freq, maxtick)
            && (t.status.NegativeTicks? <==> t.sim.tick > maxtick)
            && (t.status.NegativeTicks? ==> t.steps != [] && t.steps[|t.steps| - 1].done > maxtick)
            && (t.status == Ended(Limit) ==> t.sim.tick == maxtick)
            && (s.drains == [] ==> !t.status.NegativeTicks?)
    decreases Room(s, maxtick)
  {
    var e := Simulate(s, freq);
    SimulateFacts(s, freq);
    if e.cause.Limit? && Accepts(list, active) {
      var s', active' := Drain(e.sim), Handover(list, active);
      var step := Step(e.sim.tick, s'.tick, active, active');
      if maxtick - s'.tick > freq {
        RequestsInTime(s', Swap(list), active', freq, maxtick);
        var t := RepeatSwitch(s', Swap(list), active', freq, maxtick);
        InTimeCons(step, t.steps, s.tick, freq, maxtick);
      } else {
        InTimeCons(step, [], s.tick, freq, maxtick);
        if maxtick >= s'.tick { SimulateFacts(s', maxtick - s'.tick); }
      }
    }
  }

  /** If one period fits before maxtick at entry, no switch is ever requested after
      maxtick, the k-th comes no earlier than k + 1 periods, so there are finitely
      many, and a run that reports the limit is exactly at maxtick.  The run passes
      maxtick, and then asks for a negative number of ticks, exactly if draining for
      a switch it reaches passes maxtick. */
  lemma {:induction false} TimeStaysBelowMaxtick(s: Sim, list: seq<Pair>, active: set<Cpu>, freq: nat, maxtick: int)
    requires freq > 0 && s.tick + freq <= maxtick
    ensures var t := RepeatSwitch(s, list, active, freq, maxtick);
            && InTime(t.steps, s.tick, freq, maxtick)
            && (t.status.NegativeTicks? <==> t.sim.tick > maxtick)
            && (t.status.NegativeTicks? ==> t.steps != [] && t.steps[|t.steps| - 1].done > maxtick)
            && (t.status == Ended(Limit) ==> t.sim.tick == maxtick)
            && (s.drains == [] ==> !t.status.NegativeTicks?)
            && (Exact(list, active) ==>
                  (t.sim.tick > maxtick <==> exists k: nat :: Overruns(s, freq, maxtick, k)))
  {
    RequestsInTime(s, list, active, freq, maxtick);
    if Exact(list, active) { EverySwitchOnScript(s, list, active, freq, maxtick); }
  }

  /** A drain of one tick is enough: the only switch is asked for at maxtick and done
      after it, and the remaining number of ticks is negative. */
  lemma {:induction false} DrainPassesSwitchLimit(s: Sim, list: seq<Pair>, active: set<Cpu>)
    requires Exact(list, active)
    requires s.tick == 0 && s.drains == [1] && |s.replies| == 1 && s.replies[0].cause.Limit?
    ensures var t := RepeatSwitch(s, list, active, 5, 5);
            t.status.NegativeTicks? && t.sim.tick == 6 && |t.steps| == 1 && t.steps[0].requested == 5
  {
    ThereAndBack(list, active);
    assert Drain(Simulate(s, 5).sim).tick == 6;
  }

  ghost predicate NeverLate(t: Trace, maxtick: int) {
    forall k :: 0 <= k < |t.steps| ==> t.steps[k].requested <= maxtick
  }

  /** The guard at the call compares maxtick with the period alone.  What is needed is
      that the period fits after the current tick: for every behaviour of the guest
      and every length of the drains the switches are requested at or before maxtick
      exactly then. */
  lemma {:induction false} FitsExactly(tick: nat, list: seq<Pair>, active: set<Cpu>, freq: nat, maxtick: int)
    requires freq > 0 && Exact(list, active)
    ensures (forall s: Sim :: s.tick == tick ==> NeverLate(RepeatSwitch(s, list, active, freq, maxtick), maxtick))
            <==> tick + freq <= maxtick
  {
    if tick + freq <= maxtick {
      forall s: Sim | s.tick == tick ensures NeverLate(RepeatSwitch(s, list, active, freq, maxtick), maxtick) {
        RequestsInTime(s, list, active, freq, maxtick);
        var t := RepeatSwitch(s, list, active, freq, maxtick);
        forall k | 0 <= k < |t.steps| ensures t.steps[k].requested <= maxtick {
          assert StepInTime(t.steps, k, tick, freq, maxtick);
        }
      }
    } else {
      var s := Sim(tick, [Reply(Limit, 0)], []);
      FirstSwitchLate(s, list, active, freq, maxtick);
    }
  }

  lemma {:induction false} FirstSwitchLate(s: Sim, list: seq<Pair>, active: set<Cpu>, freq: nat, maxtick: int)
    requires freq > 0 && Exact(list, active) && s.tick + freq > maxtick && Simulate(s, freq).cause.Limit?
    ensures !NeverLate(RepeatSwitch(s, list, active, freq, maxtick), maxtick)
  {
    ExactHandover(list, active);
    var t := RepeatSwitch(s, list, active, freq, maxtick);
    assert t.steps[0].requested == s.tick + freq;
  }

  // ---------------------------------------------------------------- setting up the list

  function Pairs(from: Bank, to: Bank, np: nat): seq<Pair> {
    if np == 0 then [] else Pairs(from, to, np - 1) + [Pair(Cpu(from, np - 1), Cpu(to, np - 1))]
  }

  // The running CPUs when the loop is entered: the main ones, or with a fast-forward
  // class the ones switched to first.
  function Entered(cpuClass: bool, np: nat): set<Cpu> {
    var all := set i | 0 <= i < np :: Cpu(Main, i);
    if cpuClass then Handover(Pairs(Main, Switch, np), all) else all
  }

  function RepeatList(cpuClass: bool, np: nat): seq<Pair> {
    Pairs(if cpuClass then Switch else Main, Repeat, np)
  }

  lemma {:induction false} PairsMembers(from: Bank, to: Bank, np: nat)
    ensures Olds(Pairs(from, to, np)) == set i | 0 <= i < np :: Cpu(from, i)
    ensures News(Pairs(from, to, np)) == set i | 0 <= i < np :: Cpu(to, i)
  {
    if np > 0 {
      PairsMembers(from, to, np - 1);
      var t, l := Pairs(from, to, np - 1), Pair(Cpu(from, np - 1), Cpu(to, np - 1));
      assert forall p :: p in Pairs(from, to, np) <==> p in t || p == l;
      assert Olds(Pairs(from, to, np)) == Olds(t) + {l.outgoing};
      assert News(Pairs(from, to, np)) == News(t) + {l.incoming};
    }
  }

  lemma {:induction false} PairsAt(from: Bank, to: Bank, np: nat)
    ensures |Pairs(from, to, np)| == np
    ensures forall i :: 0 <= i < np ==> Pairs(from, to, np)[i] == Pair(Cpu(from, i), Cpu(to, i))
  {
    if np > 0 { PairsAt(from, to, np - 1); }
  }

  /** However the run was set up, the list built for repeatSwitch starts from exactly
      the CPUs that are running and pairs each with the other one of its number. */
  lemma {:induction false} SetupIsExact(cpuClass: bool, np: nat)
    ensures Exact(RepeatList(cpuClass, np), Entered(cpuClass, np))
    ensures |RepeatList(cpuClass, np)| == np
    ensures forall i :: 0 <= i < np ==>
              RepeatList(cpuClass, np)[i] == Pair(Cpu(if cpuClass then Switch else Main, i), Cpu(Repeat, i))
    ensures forall c :: c in Entered(cpuClass, np) <==> c.bank == (if cpuClass then Switch else Main) && c.id < np
  {
    PairsAt(if cpuClass then Switch else Main, Repeat, np);
    PairsMembers(Main, Switch, np);
    PairsMembers(Main, Repeat, np);
    PairsMembers(Switch, Repeat, np);
    var all := set i | 0 <= i < np :: Cpu(Main, i);
    ExactHandover(Pairs(Main, Switch, np), all);
  }

  // ---------------------------------------------------------------- the program

  method SwapPairs(list: seq<Pair>) returns (r: seq<Pair>)
    ensures r == Swap(list)
  {
    r := [];
    for i := 0 to |list|
      invariant r == Swap(list[..i])
    {
      assert list[..i + 1][..i] == list[..i];
      r := r + [Pair(list[i].incoming, list[i].outgoing)];
    }
    assert list[..|list|] == list;
  }

  function Prefixed(steps: seq<Step>, t: Trace): Trace { t.(steps := steps + t.steps) }

  /** repeatSwitch. */
  method SwitchRepeatedly(m: Machine, list0: seq<Pair>, active0: set<Cpu>, freq: nat, maxtick: int)
    returns (steps: seq<Step>, status: Status)
    requires freq > 0
    modifies m
    ensures Trace(steps, m.View(), status) == RepeatSwitch(old(m.View()), list0, active0, freq, maxtick)
  {
    ghost var goal := RepeatSwitch(m.View(), list0, active0, freq, maxtick);
    var list, active := list0, active0;
    steps := [];
    assert [] + goal.steps == goal.steps;
    while true
      invariant goal == Prefixed(steps, RepeatSwitch(m.View(), list, active, freq, maxtick))
      decreases Room(m.View(), maxtick)
    {
      RepeatStep(steps, m.View(), list, active, freq, maxtick);
      SimulateFacts(m.View(), freq);
      var cause := m.Run(freq);
      if !cause.Limit? {
        return steps, Ended(cause);
      }
      if !Accepts(list, active) {
        return steps, BadSwitch;
      }
      var requested := m.tick;
      m.DrainAll();
      var after := Handover(list, active);
      var step := Step(requested, m.tick, active, after);
      var back := SwapPairs(list);
      if maxtick - m.tick <= freq {
        steps := steps + [step];
        if maxtick < m.tick {
          return steps, NegativeTicks;
        }
        cause := m.Run(maxtick - m.tick);
        return steps, Ended(cause);
      }
      steps, list, active := steps + [step], back, after;
    }
  }

  // One turn of the loop, after the given steps.
  lemma {:induction false} RepeatStep(steps: seq<Step>, s: Sim, list: seq<Pair>, active: set<Cpu>, freq: nat, maxtick: int)
    requires freq > 0
    ensures var e, goal := Simulate(s, freq), Prefixed(steps, RepeatSwitch(s, list, active, freq, maxtick));
            var s', active' := Drain(e.sim), Handover(list, active);
            var done := steps + [Step(e.sim.tick, s'.tick, active, active')];
            if !e.cause.Limit? then goal == Trace(steps, e.sim, Ended(e.cause))
            else if !Accepts(list, active) then goal == Trace(steps, e.sim, BadSwitch)
            else if maxtick - s'.tick > freq then goal == Prefixed(done, RepeatSwitch(s', Swap(list), active', freq, maxtick))
            else if maxtick < s'.tick then goal == Trace(done, s', NegativeTicks)
            else var f := Simulate(s', maxtick - s'.tick); goal == Trace(done, f.sim, Ended(f.cause))
  {
    assert steps + [] == steps;
    var e := Simulate(s, freq);
    var s', active' := Drain(e.sim), Handover(list, active);
    if e.cause.Limit? && Accepts(list, active) && maxtick - s'.tick > freq {
      var step, t := Step(e.sim.tick, s'.tick, active, active'), RepeatSwitch(s', Swap(list), active', freq, maxtick);
      assert steps + ([step] + t.steps) == steps + [step] + t.steps;
    }
  }
}

/** Periodic checkpoints (scriptCheckpoints in configs/common/Simulation.py) and the
    simulator that they and the CPU switching loop are driven by.

    The simulator is driven by a script of replies, one for each call of
    m5.simulate(n).  A reply of Limit runs the full n ticks; any other cause stops after
    at most n ticks.  m5.checkpoint and m5.switchCpus first drain the system, which may
    itself take ticks; those delays are a second script.  A run whose script of replies
    is used up is treated as ended by the guest.
 */
module SimControl {
  import opened Common

  datatype Cause = Limit | GuestCheckpoint | Other

  datatype Reply = Reply(cause: Cause, ticks: nat)

  datatype Sim = Sim(tick: nat, replies: seq<Reply>, drains: seq<nat>)

  datatype Stopped = Stopped(sim: Sim, cause: Cause)

  // m5.simulate(n)
  function Simulate(s: Sim, n: nat): Stopped {
    if s.replies == [] then Stopped(s, Other)
    else
      var r, rest := s.replies[0], s.replies[1..];
      var t := if r.cause.Limit? || r.ticks > n then n else r.ticks;
      Stopped(Sim(s.tick + t, rest, s.drains), r.cause)
  }

  // the drain before a checkpoint or a CPU switch
  function Drain(s: Sim): Sim {
    if s.drains == [] then s else Sim(s.tick + s.drains[0], s.replies, s.drains[1..])
  }

  lemma {:induction false} SimulateFacts(s: Sim, n: nat)
    ensures var r := Simulate(s, n);
            && s.tick <= r.sim.tick <= s.tick + n
            && (r.cause.Limit? ==> r.sim.tick == s.tick + n)
            && |r.sim.replies| <= |s.replies|
            && (r.cause != Other ==> |r.sim.replies| < |s.replies|)
  {
  }

  // ---------------------------------------------------------------- periodic checkpoints

  // A checkpoint asked for at one tick and written after the drain.
  datatype Taken = Taken(requested: nat, written: nat)

  // cause is that of the last exit event; None: a negative tick count was passed to
  // m5.simulate, which raises.
  datatype Outcome = Outcome(taken: seq<Taken>, sim: Sim, cause: Option<Cause>)

  // while the exit cause is "checkpoint": simulate(target - curTick()).  The cause is
  // still GuestCheckpoint at the end only if that tick count became negative.
  function SkipGuest(e: Stopped, target: nat): Stopped
    decreases |e.sim.replies| + (if e.cause.Other? then 0 else 1)
  {
    if !e.cause.GuestCheckpoint? || target < e.sim.tick then e
    else
      SimulateFacts(e.sim, target - e.sim.tick);
      SkipGuest(Simulate(e.sim, target - e.sim.tick), target)
  }

  function Take(s: Sim): Taken { Taken(s.tick, Drain(s).tick) }

  // The main loop, entered after an exit event of cause Limit; `cause` is the variable
  // exit_cause, which need not be that of the last event, simTicks is sim_ticks.
  function Periods(s: Sim, cause: Cause, simTicks: nat, num: nat, max: int, period: nat, maxtick: int): Outcome
    decreases |s.replies|
  {
    if num >= max || !cause.Limit? then Outcome([], s, Some(Limit))
    else if simTicks + period > maxtick then
      if maxtick < simTicks then Outcome([], s, None)
      else var e := Simulate(s, maxtick - simTicks); Outcome([], e.sim, Some(e.cause))
    else
      var first := Simulate(s, period);
      var e := SkipGuest(first, simTicks + period);
      if e.cause.GuestCheckpoint? then Outcome([], e.sim, None)
      else if !e.cause.Limit? then Outcome([], e.sim, Some(e.cause))
      else
        SkipShrinks(first, simTicks + period);
        SimulateFacts(s, period);
        var o := Periods(Drain(e.sim), first.cause, simTicks + period, num + 1, max, period, maxtick);
        o.(taken := [Take(e.sim)] + o.taken)
  }

  lemma {:induction false} SkipShrinks(e: Stopped, target: nat)
    ensures |SkipGuest(e, target).sim.replies| <= |e.sim.replies|
    decreases |e.sim.replies| + (if e.cause.Other? then 0 else 1)
  {
    if e.cause.GuestCheckpoint? && target >= e.sim.tick {
      SimulateFacts(e.sim, target - e.sim.tick);
      SkipShrinks(Simulate(e.sim, target - e.sim.tick), target);
    }
  }

  // scriptCheckpoints for "when,period"
  function ScriptCheckpoints(s: Sim, when: nat, period: nat, max: int, maxtick: int): Outcome {
    if when < s.tick then Outcome([], s, None)
    else
      var first := Simulate(s, when - s.tick);
      var e := SkipGuest(first, when);
      if e.cause.GuestCheckpoint? then Outcome([], e.sim, None)
      else if !e.cause.Limit? then Outcome([], e.sim, Some(e.cause))
      else
        var o := Periods(Drain(e.sim), Limit, when, 1, max, period, maxtick);
        o.(taken := [Take(e.sim)] + o.taken)
  }

  // The tick of the k-th checkpoint according to the command line.
  function Grid(when: nat, period: nat, k: nat): nat {
    if k == 0 then when else Grid(when, period, k - 1) + period
  }

  lemma {:induction false} GridIsLinear(when: nat, period: nat, k: nat)
    ensures Grid(when, period, k) == when + k * period
  {
    if k > 0 {
      GridIsLinear(when, period, k - 1);
      assert k * period == (k - 1) * period + period;
    }
  }

  lemma {:induction false} GridShift(when: nat, period: nat, k: nat)
    ensures Grid(when + period, period, k) == Grid(when, period, k + 1)
  {
    if k > 0 { GridShift(when, period, k - 1); }
  }

  // ---------------------------------------------------------------- what a script leads to

  // How long the k-th drain takes, and the first k together.
  function Delay(drains: seq<nat>, k: nat): nat { if k < |drains| then drains[k] else 0 }

  function Delays(drains: seq<nat>, k: nat): nat {
    if k == 0 then 0 else Delays(drains, k - 1) + Delay(drains, k - 1)
  }

  // The drains left after k of them.
  function Rest(drains: seq<nat>, k: nat): seq<nat> { if k <= |drains| then drains[k..] else [] }

  // How many replies at the start are guest checkpoints, or Limit.
  function Guests(r: seq<Reply>): (g: nat)
    ensures g <= |r| && (g < |r| ==> !r[g].cause.GuestCheckpoint?)
  {
    if r == [] || !r[0].cause.GuestCheckpoint? then 0 else 1 + Guests(r[1..])
  }

  function Limits(r: seq<Reply>): (l: nat)
    ensures l <= |r| && (l < |r| ==> !r[l].cause.Limit?)
  {
    if r == [] || !r[0].cause.Limit? then 0 else 1 + Limits(r[1..])
  }

  // The cause left once the guest's checkpoints are skipped.
  function FirstCause(r: seq<Reply>): Cause { if Guests(r) < |r| then r[Guests(r)].cause else Other }

  // After any guest checkpoints the limit is reached.
  predicate Passes(r: seq<Reply>) { Guests(r) < |r| && r[Guests(r)].cause.Limit? }

  // A period that began `late` ticks behind is interrupted by the guest only after the
  // tick at which it should have ended.
  predicate Overshoots(r: seq<Reply>, period: nat, late: nat) {
    r != [] && r[0].cause.GuestCheckpoint? && (if r[0].ticks > period then period else r[0].ticks) + late > period
  }

  // How many more checkpoints fit after one at simTicks.
  function Fitting(simTicks: nat, num: nat, max: int, period: nat, maxtick: int): nat
    decreases max - num
  {
    if num >= max || simTicks + period > maxtick then 0
    else 1 + Fitting(simTicks + period, num + 1, max, period, maxtick)
  }

  // How many checkpoints the main loop takes, entered after j drains, if `fit` fit: one
  // for each period that runs to its limit, and one for a period that the guest
  // interrupts in time.
  function LoopCount(r: seq<Reply>, drains: seq<nat>, j: nat, fit: nat, period: nat): nat {
    var l := Limits(r);
    if l >= fit then fit
    else l + if Passes(r[l..]) && !Overshoots(r[l..], period, Delays(drains, j + l)) then 1 else 0
  }

  // The k-th of them: behind its grid tick by all drains so far, except after an
  // interruption, which is waited for up to the grid tick itself.
  function LoopTaken(r: seq<Reply>, drains: seq<nat>, j: nat, first: nat, period: nat, k: nat): Taken {
    var requested := Grid(first, period, k) + if k < Limits(r) then Delays(drains, j + k) else 0;
    Taken(requested, requested + Delay(drains, j + k))
  }

  // The main loop stands at a grid tick plus all drains so far.
  ghost predicate Behind(s: Sim, simTicks: nat, drains: seq<nat>, j: nat) {
    s.tick == simTicks + Delays(drains, j) && s.drains == Rest(drains, j)
  }

  lemma {:induction false} DrainStep(s: Sim, drains: seq<nat>, j: nat)
    requires s.drains == Rest(drains, j)
    ensures Drain(s) == Sim(s.tick + Delay(drains, j), s.replies, Rest(drains, j + 1))
  {
  }

  // Where skipping the guest's checkpoints ends, once it starts in time.
  lemma {:induction false} SkipEnds(e: Stopped, target: nat)
    requires e.cause.GuestCheckpoint? && e.sim.tick <= target
    ensures var r, g, f := e.sim.replies, Guests(e.sim.replies), SkipGuest(e, target);
            && f.sim.tick <= target && f.sim.drains == e.sim.drains
            && f.cause == (if g < |r| then r[g].cause else Other)
            && (f.cause.Limit? ==> f.sim == Sim(target, r[g + 1..], e.sim.drains))
    decreases |e.sim.replies|
  {
    var r, f := e.sim.replies, Simulate(e.sim, target - e.sim.tick);
    assert SkipGuest(e, target) == SkipGuest(f, target);
    if r != [] && r[0].cause.GuestCheckpoint? {
      SkipEnds(f, target);
      GuestsStep(r);
    }
  }

  lemma {:induction false} GuestsStep(r: seq<Reply>)
    requires r != [] && r[0].cause.GuestCheckpoint?
    ensures var g := Guests(r[1..]);
            Guests(r) == g + 1 && (g < |r[1..]| ==> r[g + 1] == r[1..][g] && r[g + 2..] == r[1..][g + 1..])
  {
  }

  // One period: how it ends, and the state from which the next one starts.
  lemma {:induction false} PeriodEnds(s: Sim, simTicks: nat, period: nat, drains: seq<nat>, j: nat)
    requires Behind(s, simTicks, drains, j)
    ensures var r, late := s.replies, Delays(drains, j);
            var f := SkipGuest(Simulate(s, period), simTicks + period);
            && f.sim.tick <= simTicks + period + late
            && (f.cause.GuestCheckpoint? <==> Overshoots(r, period, late))
            && (f.cause.Limit? <==> Passes(r) && !Overshoots(r, period, late))
            && (f.cause.Limit? ==> f.sim == Sim(simTicks + period + (if Limits(r) > 0 then late else 0),
                                                r[Guests(r) + 1..], s.drains))
  {
    var r, first := s.replies, Simulate(s, period);
    if first.cause.GuestCheckpoint? && first.sim.tick <= simTicks + period {
      SkipEnds(first, simTicks + period);
      GuestsStep(r);
    }
  }

  lemma {:induction false} PeriodCause(s: Sim, simTicks: nat, period: nat)
    ensures var f := SkipGuest(Simulate(s, period), simTicks + period);
            !f.cause.GuestCheckpoint? ==> f.cause == FirstCause(s.replies)
  {
    var r, first := s.replies, Simulate(s, period);
    if first.cause.GuestCheckpoint? && first.sim.tick <= simTicks + period {
      SkipEnds(first, simTicks + period);
      GuestsStep(r);
    }
  }

  // A period that runs to its limit, and what follows.
  lemma {:induction false} NextPeriod(s: Sim, simTicks: nat, num: nat, max: int, period: nat, maxtick: int,
                                      drains: seq<nat>, j: nat) returns (next: Sim)
    requires Behind(s, simTicks, drains, j) && num < max && simTicks + period <= maxtick
    requires s.replies != [] && s.replies[0].cause.Limit?
    ensures Behind(next, simTicks + period, drains, j + 1) && next.replies == s.replies[1..]
    ensures var x := LoopTaken(s.replies, drains, j, simTicks + period, period, 0);
            var o := Periods(next, Limit, simTicks + period, num + 1, max, period, maxtick);
            Periods(s, Limit, simTicks, num, max, period, maxtick) == o.(taken := [x] + o.taken)
  {
    var first := Simulate(s, period);
    DrainStep(first.sim, drains, j);
    next := Drain(first.sim);
    assert SkipGuest(first, simTicks + period) == first;
    assert Take(first.sim) == LoopTaken(s.replies, drains, j, simTicks + period, period, 0);
  }

  // A period that does not: it is the last, with or without a checkpoint.
  lemma {:induction false} LastPeriod(s: Sim, simTicks: nat, num: nat, max: int, period: nat, maxtick: int,
                                      drains: seq<nat>, j: nat)
    requires Behind(s, simTicks, drains, j) && num < max && simTicks + period <= maxtick && Limits(s.replies) == 0
    ensures var r, late := s.replies, Delays(drains, j);
            var o, over := Periods(s, Limit, simTicks, num, max, period, maxtick), Overshoots(r, period, late);
            && o.cause == (if over then None else Some(FirstCause(r)))
            && (Passes(r) && !over ==> o.taken == [LoopTaken(r, drains, j, simTicks + period, period, 0)])
            && (!(Passes(r) && !over) ==> o.taken == [])
            && o.sim.tick <= simTicks + period + late + Delay(drains, j)
            && (o.taken == [] ==> o.sim.tick <= simTicks + period + late)
  {
    var first := Simulate(s, period);
    var f := SkipGuest(first, simTicks + period);
    PeriodEnds(s, simTicks, period, drains, j);
    PeriodCause(s, simTicks, period);
    if f.cause.Limit? {
      DrainStep(f.sim, drains, j);
      assert Periods(Drain(f.sim), first.cause, simTicks + period, num + 1, max, period, maxtick).taken == [];
    }
  }

  ghost predicate LoopTakes(taken: seq<Taken>, r: seq<Reply>, drains: seq<nat>, j: nat, first: nat, period: nat, fit: nat) {
    && |taken| == LoopCount(r, drains, j, fit, period)
    && forall k :: 0 <= k < |taken| ==> taken[k] == LoopTaken(r, drains, j, first, period, k)
  }

  lemma {:induction false} LoopTakesCons(taken: seq<Taken>, r: seq<Reply>, drains: seq<nat>, j: nat, first: nat, period: nat, fit: nat)
    requires r != [] && r[0].cause.Limit?
    requires LoopTakes(taken, r[1..], drains, j + 1, first + period, period, fit)
    ensures LoopTakes([LoopTaken(r, drains, j, first, period, 0)] + taken, r, drains, j, first, period, fit + 1)
  {
    var t := [LoopTaken(r, drains, j, first, period, 0)] + taken;
    assert r[1..][Limits(r[1..])..] == r[Limits(r)..];
    forall k | 0 <= k < |t| ensures t[k] == LoopTaken(r, drains, j, first, period, k) {
      if k > 0 {
        GridShift(first, period, k - 1);
        assert t[k] == taken[k - 1];
      }
    }
  }

  lemma {:induction false} LoopTakesLast(s: Sim, simTicks: nat, num: nat, max: int, period: nat, maxtick: int,
                                         drains: seq<nat>, j: nat)
    requires Behind(s, simTicks, drains, j) && num < max && simTicks + period <= maxtick && Limits(s.replies) == 0
    ensures LoopTakes(Periods(s, Limit, simTicks, num, max, period, maxtick).taken, s.replies, drains, j,
                      simTicks + period, period, Fitting(simTicks, num, max, period, maxtick))
  {
    LastPeriod(s, simTicks, num, max, period, maxtick, drains, j);
    assert s.replies[0..] == s.replies;
  }

  lemma {:induction false} LoopTakesNone(s: Sim, simTicks: nat, num: nat, max: int, period: nat, maxtick: int,
                                         drains: seq<nat>, j: nat)
    requires num >= max || simTicks + period > maxtick
    ensures LoopTakes(Periods(s, Limit, simTicks, num, max, period, maxtick).taken, s.replies, drains, j,
                      simTicks + period, period, Fitting(simTicks, num, max, period, maxtick))
  {
  }

  lemma {:induction false} LoopTakesNext(s: Sim, simTicks: nat, num: nat, max: int, period: nat, maxtick: int,
                                         drains: seq<nat>, j: nat, next: Sim)
    requires num < max && simTicks + period <= maxtick && Limits(s.replies) > 0 && next.replies == s.replies[1..]
    requires var x := LoopTaken(s.replies, drains, j, simTicks + period, period, 0);
             Periods(s, Limit, simTicks, num, max, period, maxtick).taken
             == [x] + Periods(next, Limit, simTicks + period, num + 1, max, period, maxtick).taken
    requires LoopTakes(Periods(next, Limit, simTicks + period, num + 1, max, period, maxtick).taken, next.replies,
                       drains, j + 1, simTicks + period + period, period,
                       Fitting(simTicks + period, num + 1, max, period, maxtick))
    ensures LoopTakes(Periods(s, Limit, simTicks, num, max, period, maxtick).taken, s.replies, drains, j,
                      simTicks + period, period, Fitting(simTicks, num, max, period, maxtick))
  {
    LoopTakesCons(Periods(next, Limit, simTicks + period, num + 1, max, period, maxtick).taken, s.replies, drains, j,
                  simTicks + period, period, Fitting(simTicks + period, num + 1, max, period, maxtick));
  }

  lemma {:induction false} PeriodsTake(s: Sim, simTicks: nat, num: nat, max: int, period: nat, maxtick: int,
                                       drains: seq<nat>, j: nat)
    requires Behind(s, simTicks, drains, j)
    ensures LoopTakes(Periods(s, Limit, simTicks, num, max, period, maxtick).taken, s.replies, drains, j,
                      simTicks + period, period, Fitting(simTicks, num, max, period, maxtick))
    decreases |s.replies|
  {
    if num >= max || simTicks + period > maxtick {
      LoopTakesNone(s, simTicks, num, max, period, maxtick, drains, j);
    } else if Limits(s.replies) == 0 {
      LoopTakesLast(s, simTicks, num, max, period, maxtick, drains, j);
    } else {
      var next := NextPeriod(s, simTicks, num, max, period, maxtick, drains, j);
      PeriodsTake(next, simTicks + period, num + 1, max, period, maxtick, drains, j + 1);
      LoopTakesNext(s, simTicks, num, max, period, maxtick, drains, j, next);
    }
  }

  // ---------------------------------------------------------------- every run

  // The replies left after the first checkpoint.
  function Later(s: Sim): seq<Reply>
    requires Passes(s.replies)
  {
    s.replies[Guests(s.replies) + 1..]
  }

  // How many checkpoints a run takes, from its script and the command line.
  function Count(s: Sim, when: nat, period: nat, max: int, maxtick: int): nat {
    if when < s.tick || !Passes(s.replies) then 0
    else 1 + LoopCount(Later(s), s.drains, 1, Fitting(when, 1, max, period, maxtick), period)
  }

  // By how much the k-th checkpoint is requested after when + k * period.
  function Late(s: Sim, k: nat): nat
    requires Passes(s.replies)
  {
    if k <= Limits(Later(s)) then Delays(s.drains, k) else 0
  }

  lemma {:induction false} FirstPeriod(s: Sim, when: nat)
    requires s.tick <= when
    ensures var e := SkipGuest(Simulate(s, when - s.tick), when);
            && !e.cause.GuestCheckpoint? && e.sim.tick <= when && (e.cause.Limit? <==> Passes(s.replies))
            && e.cause == FirstCause(s.replies)
            && (e.cause.Limit? ==> e.sim == Sim(when, Later(s), s.drains)
                                   && Behind(Drain(e.sim), when, s.drains, 1))
  {
    var r, first := s.replies, Simulate(s, when - s.tick);
    assert Delays(s.drains, 1) == Delays(s.drains, 0) + Delay(s.drains, 0);
    if first.cause.GuestCheckpoint? {
      SkipEnds(first, when);
      GuestsStep(r);
    }
  }

  lemma {:induction false} FittingBounds(simTicks: nat, num: nat, max: int, period: nat, maxtick: int)
    ensures Fitting(simTicks, num, max, period, maxtick) <= if max > num then max - num else 0
    ensures Fitting(simTicks, num, max, period, maxtick) > 0 ==>
              Grid(simTicks, period, Fitting(simTicks, num, max, period, maxtick)) <= maxtick
    decreases max - num
  {
    if num < max && simTicks + period <= maxtick {
      FittingBounds(simTicks + period, num + 1, max, period, maxtick);
      GridShift(simTicks, period, Fitting(simTicks + period, num + 1, max, period, maxtick));
    }
  }

  // Checkpoint k of a run.
  function RunTaken(s: Sim, when: nat, period: nat, k: nat): Taken
    requires Passes(s.replies)
  {
    var requested := Grid(when, period, k) + Late(s, k);
    Taken(requested, requested + Delay(s.drains, k))
  }

  lemma {:induction false} RunTakes(s: Sim, when: nat, period: nat, max: int, maxtick: int)
    requires s.tick <= when && Passes(s.replies)
    ensures var t := ScriptCheckpoints(s, when, period, max, maxtick).taken;
            && |t| == Count(s, when, period, max, maxtick)
            && forall k :: 0 <= k < |t| ==> t[k] == RunTaken(s, when, period, k)
  {
    FirstPeriod(s, when);
    var e := SkipGuest(Simulate(s, when - s.tick), when);
    var x, next := Take(e.sim), Drain(e.sim);
    var rest := Periods(next, Limit, when, 1, max, period, maxtick).taken;
    PeriodsTake(next, when, 1, max, period, maxtick, s.drains, 1);
    var t := [x] + rest;
    assert ScriptCheckpoints(s, when, period, max, maxtick).taken == t;
    forall k | 0 <= k < |t| ensures t[k] == RunTaken(s, when, period, k) {
      if k > 0 {
        GridShift(when, period, k - 1);
        assert t[k] == rest[k - 1];
      }
    }
  }

  lemma {:induction false} CountBounds(s: Sim, when: nat, period: nat, max: int, maxtick: int)
    ensures var n := Count(s, when, period, max, maxtick);
            n <= (if max > 1 then max else 1) && (n > 1 ==> when + (n - 1) * period <= maxtick)
  {
    var n, fit := Count(s, when, period, max, maxtick), Fitting(when, 1, max, period, maxtick);
    FittingBounds(when, 1, max, period, maxtick);
    if n > 1 {
      GridIsLinear(when, period, n - 1);
      GridMonotoneIn(when, period, n - 1, fit);
    }
  }

  /** Every run, whatever the guest and the drains do: how many checkpoints it takes,
      when each is requested and when it is written, from the script of the simulator
      and the command line.  At most max(1, max) are taken, and those after the first
      only where when + k * period is at most maxtick. */
  lemma {:induction false} EveryRunOnSchedule(s: Sim, when: nat, period: nat, max: int, maxtick: int)
    ensures var t := ScriptCheckpoints(s, when, period, max, maxtick).taken;
            && |t| == Count(s, when, period, max, maxtick) <= (if max > 1 then max else 1)
            && (t != [] ==> Passes(s.replies))
            && (forall k :: 0 <= k < |t| ==> t[k].requested == when + k * period + Late(s, k))
            && (forall k :: 0 <= k < |t| ==> t[k].written == t[k].requested + Delay(s.drains, k))
            && (|t| > 1 ==> when + (|t| - 1) * period <= maxtick)
  {
    CountBounds(s, when, period, max, maxtick);
    if s.tick <= when {
      FirstPeriod(s, when);
      if Passes(s.replies) {
        RunTakes(s, when, period, max, maxtick);
        var t := ScriptCheckpoints(s, when, period, max, maxtick).taken;
        forall k | 0 <= k < |t|
          ensures t[k].requested == when + k * period + Late(s, k) && t[k].written == t[k].requested + Delay(s.drains, k)
        {
          GridIsLinear(when, period, k);
        }
      }
    }
  }

  lemma {:induction false} GridMonotoneIn(when: nat, period: nat, k: nat, m: nat)
    requires k <= m
    ensures Grid(when, period, k) <= Grid(when, period, m)
  {
    if k < m { GridMonotoneIn(when, period, k, m - 1); }
  }

  // All that fit are taken: each period but the last runs to its limit without a guest
  // checkpoint, and in the last one any guest checkpoints come early enough.
  predicate Undisturbed(s: Sim, fit: nat, period: nat)
    requires Passes(s.replies)
  {
    var r := Later(s);
    var l := Limits(r);
    l >= fit || (l + 1 == fit && Passes(r[l..]) && !Overshoots(r[l..], period, Delays(s.drains, l + 1)))
  }

  /** All checkpoints that fit are taken if and only if the script has this form. */
  lemma {:induction false} TakesAllExactly(s: Sim, when: nat, period: nat, max: int, maxtick: int)
    ensures var fit := Fitting(when, 1, max, period, maxtick);
            |ScriptCheckpoints(s, when, period, max, maxtick).taken| == 1 + fit
            <==> s.tick <= when && Passes(s.replies) && Undisturbed(s, fit, period)
  {
    EveryRunOnSchedule(s, when, period, max, maxtick);
  }

  /** A guest checkpoint inside a period ends the schedule, though the comment at the
      call says that it is ignored: of the checkpoints that fit after that period, none
      is taken. */
  lemma {:induction false} GuestCheckpointEndsSchedule(s: Sim, when: nat, period: nat, max: int, maxtick: int)
    requires s.tick <= when && Passes(s.replies)
    requires var l := Limits(Later(s)); l < |Later(s)| && Later(s)[l].cause.GuestCheckpoint?
    ensures var fit, l := Fitting(when, 1, max, period, maxtick), Limits(Later(s));
            var n := |ScriptCheckpoints(s, when, period, max, maxtick).taken|;
            (l < fit ==> n <= l + 2) && (l + 1 < fit ==> n < 1 + fit)
  {
    EveryRunOnSchedule(s, when, period, max, maxtick);
  }

  // Three checkpoints fit, and the guest's own one costs the third.
  lemma {:induction false} GuestCheckpointExample(s: Sim)
    requires s.tick == 0 && s.drains == [] && |s.replies| == 4
    requires s.replies[0].cause.Limit? && s.replies[1] == Reply(GuestCheckpoint, 1)
    requires s.replies[2].cause.Limit? && s.replies[3].cause.Limit?
    ensures Fitting(0, 1, 9, 5, 10) == 2
    ensures |ScriptCheckpoints(s, 0, 5, 9, 10).taken| == 2
  {
    var r := Later(s);
    assert Limits(r) == 0 && r[0..] == r && Guests(r) == 1 + Guests(r[1..]);
    assert Fitting(10, 3, 9, 5, 10) == 0;
    assert Fitting(5, 2, 9, 5, 10) == 1;
    assert Delays(s.drains, 1) == 0;
    EveryRunOnSchedule(s, 0, 5, 9, 10);
  }

  // ---------------------------------------------------------------- on the grid, and by maxtick

  // The last of n checkpoints that comes before any interruption by the guest.
  function LastPlain(s: Sim, n: nat): nat
    requires Passes(s.replies) && n > 0
  {
    if n - 1 <= Limits(Later(s)) then n - 1 else Limits(Later(s))
  }

  lemma {:induction false} DelaysGrow(drains: seq<nat>, k: nat, m: nat)
    requires k <= m
    ensures Delays(drains, k) <= Delays(drains, m)
  {
    if k < m { DelaysGrow(drains, k, m - 1); }
  }

  lemma {:induction false} NoDelays(drains: seq<nat>, m: nat)
    ensures Delays(drains, m) == 0 <==> forall k :: 0 <= k < m ==> Delay(drains, k) == 0
  {
    if m > 0 { NoDelays(drains, m - 1); }
  }

  /** The command line asks for checkpoints at when + k * period.  They are requested
      exactly there if and only if no drain takes time, up to the last checkpoint that
      no interruption precedes. */
  lemma {:induction false} OnGridExactly(s: Sim, when: nat, period: nat, max: int, maxtick: int)
    requires Count(s, when, period, max, maxtick) > 0
    ensures var t := ScriptCheckpoints(s, when, period, max, maxtick).taken;
            (forall k :: 0 <= k < |t| ==> t[k].requested == when + k * period)
            <==> (forall k :: 0 <= k < LastPlain(s, Count(s, when, period, max, maxtick)) ==> Delay(s.drains, k) == 0)
  {
    EveryRunOnSchedule(s, when, period, max, maxtick);
    var t := ScriptCheckpoints(s, when, period, max, maxtick).taken;
    var m := LastPlain(s, |t|);
    NoDelays(s.drains, m);
    if Delays(s.drains, m) == 0 {
      forall k | 0 <= k < |t| ensures t[k].requested == when + k * period {
        if k <= m { DelaysGrow(s.drains, k, m); }
      }
    } else {
      assert t[m].requested == when + m * period + Late(s, m);
    }
  }

  /** The loop compares the nominal tick with maxtick, not the current one.  The
      checkpoints after the first are requested at or before maxtick if and only if the
      drains leave room for the last one that no interruption precedes. */
  lemma {:induction false} WithinMaxtickExactly(s: Sim, when: nat, period: nat, max: int, maxtick: int)
    requires Count(s, when, period, max, maxtick) > 0
    ensures var t := ScriptCheckpoints(s, when, period, max, maxtick).taken;
            var m := LastPlain(s, Count(s, when, period, max, maxtick));
            (forall k :: 1 <= k < |t| ==> t[k].requested <= maxtick)
            <==> m == 0 || when + m * period + Delays(s.drains, m) <= maxtick
  {
    EveryRunOnSchedule(s, when, period, max, maxtick);
    var t := ScriptCheckpoints(s, when, period, max, maxtick).taken;
    var m := LastPlain(s, |t|);
    assert t[m].requested == when + m * period + Late(s, m);
    if m == 0 || t[m].requested <= maxtick {
      forall k | 1 <= k < |t| ensures t[k].requested <= maxtick {
        assert t[k].requested == when + k * period + Late(s, k);
        PlainOrder(s.drains, when, period, k, if k <= m then m else |t| - 1);
      }
    }
  }

  lemma {:induction false} PlainOrder(drains: seq<nat>, when: nat, period: nat, k: nat, m: nat)
    requires k <= m
    ensures when + k * period <= when + m * period
    ensures Delays(drains, k) <= Delays(drains, m)
  {
    DelaysGrow(drains, k, m);
    GridMonotoneIn(when, period, k, m);
    GridIsLinear(when, period, k);
    GridIsLinear(when, period, m);
  }

  // One tick of draining moves the second checkpoint past maxtick.
  lemma {:induction false} DrainPassesMaxtick(s: Sim)
    requires s.tick == 0 && s.drains == [1] && |s.replies| == 2 && s.replies[0].cause.Limit? && s.replies[1].cause.Limit?
    ensures var t := ScriptCheckpoints(s, 0, 5, 2, 5).taken; |t| == 2 && t[1].requested == 6
    ensures ScriptCheckpoints(s, 0, 5, 9, 4).sim.tick == 5
  {
    assert Limits(Later(s)) == 1;
    assert Fitting(5, 2, 2, 5, 5) == 0;
    assert Fitting(0, 1, 2, 5, 5) == 1;
    assert Delays(s.drains, 1) == 1;
    EveryRunOnSchedule(s, 0, 5, 2, 5);
    RunEnds(s, 0, 5, 9, 4);
  }

  // ---------------------------------------------------------------- how a run ends

  // A run is behind by no more than the drains of its checkpoints took.
  ghost predicate EndsBy(o: Outcome, simTicks: nat, maxtick: int, drains: seq<nat>, j: nat) {
    o.sim.tick <= (if maxtick > simTicks then maxtick else simTicks) + Delays(drains, j + |o.taken|)
  }

  lemma {:induction false} PeriodsEnd(s: Sim, simTicks: nat, num: nat, max: int, period: nat, maxtick: int,
                                      drains: seq<nat>, j: nat)
    requires Behind(s, simTicks, drains, j)
    ensures EndsBy(Periods(s, Limit, simTicks, num, max, period, maxtick), simTicks, maxtick, drains, j)
    decreases |s.replies|
  {
    if num >= max || simTicks + period > maxtick {
      FinalRun(s, simTicks, num, max, period, maxtick);
    } else if Limits(s.replies) == 0 {
      LastPeriodEnds(s, simTicks, num, max, period, maxtick, drains, j);
    } else {
      var next := NextPeriod(s, simTicks, num, max, period, maxtick, drains, j);
      PeriodsEnd(next, simTicks + period, num + 1, max, period, maxtick, drains, j + 1);
    }
  }

  lemma {:induction false} LastPeriodEnds(s: Sim, simTicks: nat, num: nat, max: int, period: nat, maxtick: int,
                                          drains: seq<nat>, j: nat)
    requires Behind(s, simTicks, drains, j) && num < max && simTicks + period <= maxtick && Limits(s.replies) == 0
    ensures EndsBy(Periods(s, Limit, simTicks, num, max, period, maxtick), simTicks, maxtick, drains, j)
  {
    LastPeriod(s, simTicks, num, max, period, maxtick, drains, j);
  }

  lemma {:induction false} FinalRun(s: Sim, simTicks: nat, num: nat, max: int, period: nat, maxtick: int)
    requires num >= max || simTicks + period > maxtick
    ensures var o := Periods(s, Limit, simTicks, num, max, period, maxtick);
            o.taken == [] && o.sim.tick <= s.tick + if maxtick > simTicks then maxtick - simTicks else 0
  {
    if num < max && maxtick >= simTicks { SimulateFacts(s, maxtick - simTicks); }
  }

  // The cause a run ends with, None if it raises; r are the replies left.
  ghost function EndCause(r: seq<Reply>, simTicks: nat, num: nat, max: int, period: nat, maxtick: int,
                          drains: seq<nat>, j: nat): Option<Cause>
  {
    var l, fit := Limits(r), Fitting(simTicks, num, max, period, maxtick);
    if num < max && maxtick < simTicks then None
    else if l < fit then
      if Overshoots(r[l..], period, Delays(drains, j + l)) then None else Some(FirstCause(r[l..]))
    else if num + fit >= max then Some(Limit)
    else Some(if fit < |r| then r[fit].cause else Other)
  }

  // The cause of a run that takes its first checkpoint: that of the first period that does
  // not reach its limit, of the run to maxtick, or the limit if all checkpoints are taken.
  ghost predicate EndsWith(cause: Cause, r: seq<Reply>, fit: nat, max: int) {
    var l := Limits(r);
    if l < fit then cause == FirstCause(r[l..])
    else if 1 + fit >= max then cause.Limit?
    else cause == if fit < |r| then r[fit].cause else Other
  }

  // When it raises.
  ghost predicate Raises(r: seq<Reply>, simTicks: nat, num: nat, max: int, period: nat, maxtick: int,
                         drains: seq<nat>, j: nat)
  {
    var l := Limits(r);
    || (num < max && maxtick < simTicks)
    || (l < Fitting(simTicks, num, max, period, maxtick) && Overshoots(r[l..], period, Delays(drains, j + l)))
  }

  lemma {:induction false} EndCauseNext(r: seq<Reply>, simTicks: nat, num: nat, max: int, period: nat, maxtick: int,
                                        drains: seq<nat>, j: nat)
    requires num < max && simTicks + period <= maxtick && Limits(r) > 0
    ensures EndCause(r, simTicks, num, max, period, maxtick, drains, j)
            == EndCause(r[1..], simTicks + period, num + 1, max, period, maxtick, drains, j + 1)
  {
    assert r[1..][Limits(r) - 1..] == r[Limits(r)..];
  }

  lemma {:induction false} EndCauseLast(s: Sim, simTicks: nat, num: nat, max: int, period: nat, maxtick: int,
                                        drains: seq<nat>, j: nat)
    requires Behind(s, simTicks, drains, j) && num < max && simTicks + period <= maxtick && Limits(s.replies) == 0
    ensures Periods(s, Limit, simTicks, num, max, period, maxtick).cause
            == EndCause(s.replies, simTicks, num, max, period, maxtick, drains, j)
  {
    LastPeriod(s, simTicks, num, max, period, maxtick, drains, j);
    assert s.replies[0..] == s.replies;
  }

  lemma {:induction false} EndCauseNone(s: Sim, simTicks: nat, num: nat, max: int, period: nat, maxtick: int,
                                        drains: seq<nat>, j: nat)
    requires num >= max || simTicks + period > maxtick
    ensures Periods(s, Limit, simTicks, num, max, period, maxtick).cause
            == EndCause(s.replies, simTicks, num, max, period, maxtick, drains, j)
  {
  }

  lemma {:induction false} PeriodsCause(s: Sim, simTicks: nat, num: nat, max: int, period: nat, maxtick: int,
                                        drains: seq<nat>, j: nat)
    requires Behind(s, simTicks, drains, j)
    ensures Periods(s, Limit, simTicks, num, max, period, maxtick).cause
            == EndCause(s.replies, simTicks, num, max, period, maxtick, drains, j)
    decreases |s.replies|
  {
    if num >= max || simTicks + period > maxtick {
      EndCauseNone(s, simTicks, num, max, period, maxtick, drains, j);
    } else if Limits(s.replies) == 0 {
      EndCauseLast(s, simTicks, num, max, period, maxtick, drains, j);
    } else {
      var next := NextPeriod(s, simTicks, num, max, period, maxtick, drains, j);
      PeriodsCause(next, simTicks + period, num + 1, max, period, maxtick, drains, j + 1);
      EndCauseNext(s.replies, simTicks, num, max, period, maxtick, drains, j);
    }
  }

  lemma {:induction false} PeriodsReach(s: Sim, simTicks: nat, num: nat, max: int, period: nat, maxtick: int,
                                      drains: seq<nat>, j: nat)
    requires Behind(s, simTicks, drains, j)
    ensures var o := Periods(s, Limit, simTicks, num, max, period, maxtick);
            var l, fit := Limits(s.replies), Fitting(simTicks, num, max, period, maxtick);
            l > fit && num + fit < max && simTicks <= maxtick ==> o.sim.tick == maxtick + Delays(drains, j + fit)
    decreases |s.replies|
  {
    if num < max && simTicks + period <= maxtick {
      if Limits(s.replies) > 0 {
        var next := NextPeriod(s, simTicks, num, max, period, maxtick, drains, j);
        PeriodsReach(next, simTicks + period, num + 1, max, period, maxtick, drains, j + 1);
      } else {
        LastPeriod(s, simTicks, num, max, period, maxtick, drains, j);
      }
    }
  }

  lemma {:induction false} RunStaysBehind(s: Sim, when: nat, period: nat, max: int, maxtick: int)
    ensures var o := ScriptCheckpoints(s, when, period, max, maxtick);
            s.tick <= when ==> o.sim.tick <= (if maxtick > when then maxtick else when) + Delays(s.drains, |o.taken|)
  {
    if s.tick <= when {
      FirstPeriod(s, when);
      if Passes(s.replies) {
        var e := SkipGuest(Simulate(s, when - s.tick), when);
        PeriodsEnd(Drain(e.sim), when, 1, max, period, maxtick, s.drains, 1);
      }
    }
  }

  lemma {:induction false} RunReaches(s: Sim, when: nat, period: nat, max: int, maxtick: int)
    ensures var fit := Fitting(when, 1, max, period, maxtick);
            s.tick <= when <= maxtick && Passes(s.replies) && Limits(Later(s)) > fit && 1 + fit < max ==>
              ScriptCheckpoints(s, when, period, max, maxtick).sim.tick == maxtick + Delays(s.drains, 1 + fit)
  {
    if s.tick <= when && Passes(s.replies) {
      FirstPeriod(s, when);
      var e := SkipGuest(Simulate(s, when - s.tick), when);
      PeriodsReach(Drain(e.sim), when, 1, max, period, maxtick, s.drains, 1);
    }
  }

  lemma {:induction false} RunCause(s: Sim, when: nat, period: nat, max: int, maxtick: int)
    ensures ScriptCheckpoints(s, when, period, max, maxtick).cause ==
            if when < s.tick then None
            else if !Passes(s.replies) then Some(FirstCause(s.replies))
            else EndCause(Later(s), when, 1, max, period, maxtick, s.drains, 1)
  {
    if s.tick <= when {
      FirstPeriod(s, when);
      if Passes(s.replies) {
        var e := SkipGuest(Simulate(s, when - s.tick), when);
        PeriodsCause(Drain(e.sim), when, 1, max, period, maxtick, s.drains, 1);
      }
    }
  }

  lemma {:induction false} RaisesExactly(r: seq<Reply>, simTicks: nat, num: nat, max: int, period: nat, maxtick: int,
                                         drains: seq<nat>, j: nat)
    ensures EndCause(r, simTicks, num, max, period, maxtick, drains, j).None?
            <==> Raises(r, simTicks, num, max, period, maxtick, drains, j)
  {
  }

  /** Where a run ends: at most as far behind maxtick as its drains took, and exactly
      that far if it is not interrupted.  It raises exactly if it starts after `when`,
      if `when` lies after maxtick and more than one checkpoint is allowed, or if a
      delayed period is interrupted after its nominal end.  Otherwise it ends with the
      cause of the first reply that stops it. */
  lemma {:induction false} RunEnds(s: Sim, when: nat, period: nat, max: int, maxtick: int)
    ensures var o, fit := ScriptCheckpoints(s, when, period, max, maxtick), Fitting(when, 1, max, period, maxtick);
            && (s.tick <= when ==> o.sim.tick <= (if maxtick > when then maxtick else when) + Delays(s.drains, |o.taken|))
            && (s.tick <= when <= maxtick && Passes(s.replies) && Limits(Later(s)) > fit && 1 + fit < max ==>
                  o.sim.tick == maxtick + Delays(s.drains, 1 + fit))
            && (o.cause.None? <==>
                  || when < s.tick
                  || (Passes(s.replies) && 1 < max && maxtick < when)
                  || (Passes(s.replies) && var r := Later(s); var l := Limits(r);
                      l < fit && Overshoots(r[l..], period, Delays(s.drains, 1 + l))))
            && (o.cause.Some? ==>
                  if !Passes(s.replies) then o.cause.value == FirstCause(s.replies)
                  else EndsWith(o.cause.value, Later(s), fit, max))
  {
    RunStaysBehind(s, when, period, max, maxtick);
    RunReaches(s, when, period, max, maxtick);
    RunCause(s, when, period, max, maxtick);
    if s.tick <= when && Passes(s.replies) { RaisesExactly(Later(s), when, 1, max, period, maxtick, s.drains, 1); }
  }

  // ---------------------------------------------------------------- the checkpoint program

  class Machine {
    var tick: nat
    var replies: seq<Reply>
    var drains: seq<nat>

    constructor (s: Sim)
      ensures View() == s
    {
      tick, replies, drains := s.tick, s.replies, s.drains;
    }

    function View(): Sim
      reads this
    {
      Sim(tick, replies, drains)
    }

    method Run(n: nat) returns (cause: Cause)
      modifies this
      ensures Stopped(View(), cause) == Simulate(old(View()), n)
    {
      if replies == [] {
        return Other;
      }
      cause := replies[0].cause;
      tick := tick + if cause.Limit? || replies[0].ticks > n then n else replies[0].ticks;
      replies := replies[1..];
    }

    method DrainAll()
      modifies this
      ensures View() == Drain(old(View()))
    {
      if drains != [] {
        tick := tick + drains[0];
        drains := drains[1..];
      }
    }

    // m5.checkpoint
    method Checkpoint() returns (t: Taken)
      modifies this
      ensures t == Take(old(View())) && View() == Drain(old(View()))
    {
      var requested := tick;
      DrainAll();
      t := Taken(requested, tick);
    }

    // Skip the guest's own checkpoints on the way to `target`.
    method SkipTo(target: nat, event: Cause) returns (event': Cause)
      modifies this
      ensures Stopped(View(), event') == SkipGuest(old(Stopped(View(), event)), target)
    {
      event' := event;
      while event'.GuestCheckpoint? && target >= tick
        invariant SkipGuest(Stopped(View(), event'), target) == SkipGuest(old(Stopped(View(), event)), target)
        decreases |replies| + (if event'.Other? then 0 else 1)
      {
        SimulateFacts(View(), target - tick);
        event' := Run(target - tick);
      }
    }
  }

  function Prefixed(taken: seq<Taken>, o: Outcome): Outcome { o.(taken := taken + o.taken) }

  // One turn of the loop over the periods, after the checkpoints already taken.
  lemma {:induction false} PeriodsStep(taken: seq<Taken>, s: Sim, cause: Cause, simTicks: nat, num: nat, max: int, period: nat, maxtick: int)
    requires num < max && cause.Limit? && simTicks + period <= maxtick
    ensures var goal := Prefixed(taken, Periods(s, cause, simTicks, num, max, period, maxtick));
            var first := Simulate(s, period);
            var e := SkipGuest(first, simTicks + period);
            if !e.cause.Limit? then goal == Outcome(taken, e.sim, if e.cause.GuestCheckpoint? then None else Some(e.cause))
            else |Drain(e.sim).replies| < |s.replies| &&
                 goal == Prefixed(taken + [Take(e.sim)],
                                  Periods(Drain(e.sim), first.cause, simTicks + period, num + 1, max, period, maxtick))
  {
    var first := Simulate(s, period);
    var e := SkipGuest(first, simTicks + period);
    SimulateFacts(s, period);
    SkipShrinks(first, simTicks + period);
    if e.cause.Limit? {
      var x, o := Take(e.sim), Periods(Drain(e.sim), first.cause, simTicks + period, num + 1, max, period, maxtick);
      assert taken + ([x] + o.taken) == taken + [x] + o.taken;
    } else {
      assert taken + [] == taken;
    }
  }

  // The loop over the periods.
  method TakePeriods(m: Machine, when: nat, num0: nat, max: int, period: nat, maxtick: int, taken0: seq<Taken>)
    returns (taken: seq<Taken>, cause: Option<Cause>)
    modifies m
    ensures Outcome(taken, m.View(), cause) ==
            Prefixed(taken0, Periods(old(m.View()), Limit, when, num0, max, period, maxtick))
  {
    ghost var goal := Prefixed(taken0, Periods(m.View(), Limit, when, num0, max, period, maxtick));
    taken := taken0;
    var simTicks: nat, num: nat := when, num0;
    var exitCause, event := Limit, Limit;
    while num < max && exitCause.Limit?
      invariant event.Limit?
      invariant goal == Prefixed(taken, Periods(m.View(), exitCause, simTicks, num, max, period, maxtick))
      decreases |m.View().replies|
    {
      if simTicks + period > maxtick {
        assert taken + [] == taken;
        if maxtick < simTicks {
          return taken, None;
        }
        event := m.Run(maxtick - simTicks);
        return taken, Some(event);
      }
      PeriodsStep(taken, m.View(), exitCause, simTicks, num, max, period, maxtick);
      exitCause := m.Run(period);
      simTicks := simTicks + period;
      event := m.SkipTo(simTicks, exitCause);
      if !event.Limit? {
        return taken, if event.GuestCheckpoint? then None else Some(event);
      }
      var t := m.Checkpoint();
      taken := taken + [t];
      num := num + 1;
    }
    assert taken + [] == taken;
    cause := Some(event);
  }

  /** scriptCheckpoints, tick-based branch. */
  method TakeCheckpoints(m: Machine, when: nat, period: nat, max: int, maxtick: int)
    returns (taken: seq<Taken>, cause: Option<Cause>)
    modifies m
    ensures Outcome(taken, m.View(), cause) == ScriptCheckpoints(old(m.View()), when, period, max, maxtick)
  {
    if when < m.tick {
      return [], None;
    }
    var event := m.Run(when - m.tick);
    event := m.SkipTo(when, event);
    if event.GuestCheckpoint? {
      return [], None;
    }
    if !event.Limit? {
      return [], Some(event);
    }
    var t := m.Checkpoint();
    taken, cause := TakePeriods(m, when, 1, max, period, maxtick, [t]);
  }
}

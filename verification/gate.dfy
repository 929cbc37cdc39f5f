/**
 * The hold/wait gate of missionAll.c and openCard.c.  Each call of
 * `GetNextReport` first clears the caller's report buffer, then either holds
 * (while `holding` is set and `hold_time` is not zero), waits (while
 * `waiting` is set and `wait_time` is not zero) or runs the script's action,
 * which re-arms the hold.  The hold and wait branches call `delay`, which
 * blocks for real time; only the recorded durations are modelled.
 *
 * The gate is written once for any script: a script supplies its action (its
 * `switch (state)`, which builds a report on the cleared buffer and updates
 * the phase variables) and the place its `wait_time` is kept.
 */
module Gate {
  import opened Hid
  import opened Action
  import opened Machine

  /** `DEFAULT_HOLD_TIME`: what `hold_time` starts at, and what an action restores it to when it is 0. */
  const DEFAULT_HOLD_TIME: nat := 50

  /**
   * A script as the gate sees it: its action, taking the phase variables to
   * the report (built on the cleared buffer) and the next phase variables,
   * and its `wait_time` variable, which the action sets.
   */
  datatype Script<!C> = Script(act: C -> (Report, C), waitTime: C -> nat)

  /** The gate globals around a script's phase variables `ctl`. */
  datatype Gated<C> = Gated(ctl: C, holding: bool, waiting: bool, holdTime: nat)

  /** The gate globals at power-up: holding, not waiting, `hold_time` at its default. */
  function Start<C>(c: C): Gated<C> {
    Gated(c, true, false, DEFAULT_HOLD_TIME)
  }

  /** The three branches of `GetNextReport`. */
  datatype Branch = HoldTick | WaitTick | ActionTick

  /** The branch a call takes: hold first, then wait, then act. */
  function BranchOf<C>(sc: Script<C>, s: Gated<C>): Branch {
    if s.holding && s.holdTime != 0 then HoldTick
    else if s.waiting && sc.waitTime(s.ctl) != 0 then WaitTick
    else ActionTick
  }

  /**
   * `GetNextReport` with the caller's buffer `buf`: clear it, then hold
   * (clear `holding`, set `waiting`), wait (clear `waiting`) or act (run the
   * action, restore a zero `hold_time` to the default, set `holding`).
   *
   * Whatever the buffer held, only an action sends anything but the neutral
   * report or moves the phase variables; an action is always followed by a
   * hold, a hold by a wait exactly when `wait_time` is non-zero, and a wait by
   * an action.
   */
  function Respond<C>(sc: Script<C>, buf: Report, s: Gated<C>): (r: (Report, Gated<C>))
    ensures r.0 == if BranchOf(sc, s) == ActionTick then sc.act(s.ctl).0 else Neutral
    ensures r.1.ctl == if BranchOf(sc, s) == ActionTick then sc.act(s.ctl).1 else s.ctl
    ensures BranchOf(sc, s) == ActionTick ==> BranchOf(sc, r.1) == HoldTick
    ensures BranchOf(sc, s) == HoldTick
      ==> BranchOf(sc, r.1) == if sc.waitTime(s.ctl) != 0 then WaitTick else ActionTick
    ensures BranchOf(sc, s) == WaitTick ==> BranchOf(sc, r.1) == ActionTick
  {
    var cleared := SetButton(buf, ButtonReset);
    match BranchOf(sc, s)
    case HoldTick => (cleared, s.(holding := false, waiting := true))
    case WaitTick => (cleared, s.(waiting := false))
    case ActionTick =>
      var o := sc.act(s.ctl);
      (o.0, s.(ctl := o.1, holdTime := if s.holdTime == 0 then DEFAULT_HOLD_TIME else s.holdTime, holding := true))
  }

  /** One polling tick, as a step function (the buffer passed in does not matter: `BufferIrrelevant`). */
  function Tick<C>(sc: Script<C>): Gated<C> -> (Report, Gated<C>) {
    s => Respond(sc, Neutral, s)
  }

  /** The gate state after `n` ticks. */
  function Run<C>(sc: Script<C>, s: Gated<C>, n: nat): Gated<C> {
    Final(Tick(sc), s, n)
  }

  /** The reports sent during `n` ticks. */
  function Reports<C>(sc: Script<C>, s: Gated<C>, n: nat): seq<Report> {
    Trace(Tick(sc), s, n)
  }

  /** The phase variables after `n` actions. */
  function Actions<C>(sc: Script<C>, c: C, n: nat): C {
    Final(sc.act, c, n)
  }

  /** The reports of `n` consecutive actions, one per action. */
  function ActReports<C>(sc: Script<C>, c: C, n: nat): seq<Report> {
    Trace(sc.act, c, n)
  }

  /** The next call acts. */
  predicate Ready<C>(sc: Script<C>, s: Gated<C>) {
    BranchOf(sc, s) == ActionTick
  }

  /** Ticks one action takes: the action, the hold, and a wait when the action left `wait_time` non-zero. */
  function CycleLen<C>(sc: Script<C>, c: C): nat {
    if sc.waitTime(sc.act(c).1) != 0 then 3 else 2
  }

  /** `CycleLen` as a cost function. */
  function CycleCost<C>(sc: Script<C>): C -> nat {
    c => CycleLen(sc, c)
  }

  /** Ticks taken by `n` consecutive actions. */
  function Ticks<C>(sc: Script<C>, c: C, n: nat): nat {
    Total(sc.act, CycleCost(sc), c, n)
  }

  // ---------------------------------------------------------------------------
  // One tick

  /** The buffer is cleared first, so what the caller passed in never shows in the result. */
  lemma BufferIrrelevant<C>(sc: Script<C>, buf: Report, s: Gated<C>)
    ensures Respond(sc, buf, s) == Tick(sc)(s)
  {
    ResetIsNeutral(buf);
  }

  /** Hold and wait calls send the neutral report and leave the phase variables alone; only actions send anything else. */
  lemma QuietUnlessActing<C>(sc: Script<C>, s: Gated<C>)
    ensures BranchOf(sc, s) != ActionTick ==> Tick(sc)(s).0 == Neutral && Tick(sc)(s).1.ctl == s.ctl
    ensures BranchOf(sc, s) == ActionTick ==> Tick(sc)(s).0 == sc.act(s.ctl).0 && Tick(sc)(s).1.ctl == sc.act(s.ctl).1
  {
    ResetIsNeutral(Neutral);
  }

  /** An action re-arms the hold with a non-zero `hold_time`, so the next call holds: two actions are never back to back. */
  lemma ActionThenHold<C>(sc: Script<C>, s: Gated<C>)
    requires Ready(sc, s)
    ensures BranchOf(sc, Tick(sc)(s).1) == HoldTick
    ensures Tick(sc)(s).1.holdTime != 0
  {
  }

  /** A hold is followed by a wait exactly when `wait_time` is non-zero, and by an action otherwise. */
  lemma HoldThenWait<C>(sc: Script<C>, s: Gated<C>)
    requires BranchOf(sc, s) == HoldTick
    ensures BranchOf(sc, Tick(sc)(s).1) == if sc.waitTime(s.ctl) != 0 then WaitTick else ActionTick
  {
  }

  /** A wait is always followed by an action. */
  lemma WaitThenAct<C>(sc: Script<C>, s: Gated<C>)
    requires BranchOf(sc, s) == WaitTick
    ensures Ready(sc, Tick(sc)(s).1)
  {
  }

  // ---------------------------------------------------------------------------
  // Runs of ticks

  /** Running `a` ticks and then `b` more is running `a + b` ticks. */
  lemma RunAdd<C>(sc: Script<C>, s: Gated<C>, a: nat, b: nat)
    ensures Run(sc, s, a + b) == Run(sc, Run(sc, s, a), b)
    ensures Reports(sc, s, a + b) == Reports(sc, s, a) + Reports(sc, Run(sc, s, a), b)
  {
    FinalAdd(Tick(sc), s, a, b);
    TraceAdd(Tick(sc), s, a, b);
  }

  /** Along any run, an acting tick is followed by a holding one. */
  lemma NoActionsBackToBack<C>(sc: Script<C>, s: Gated<C>, i: nat)
    requires Ready(sc, Run(sc, s, i))
    ensures BranchOf(sc, Run(sc, s, i + 1)) == HoldTick
  {
    RunAdd(sc, s, i, 1);
    ActionThenHold(sc, Run(sc, s, i));
  }

  /**
   * One action cycle from a ready state: the action's report, a neutral
   * hold, and a neutral wait when the action left `wait_time` non-zero; then
   * the gate is ready again with the phase variables the action produced.
   */
  lemma Cycle<C>(sc: Script<C>, s: Gated<C>)
    requires Ready(sc, s)
    ensures Run(sc, s, CycleLen(sc, s.ctl)) == Settled(sc, sc.act(s.ctl).1, s.holdTime)
    ensures Ready(sc, Run(sc, s, CycleLen(sc, s.ctl)))
    ensures Reports(sc, s, CycleLen(sc, s.ctl))
      == [sc.act(s.ctl).0, Neutral] + (if sc.waitTime(sc.act(s.ctl).1) != 0 then [Neutral] else [])
  {
    var s1 := Tick(sc)(s).1;
    var s2 := Tick(sc)(s1).1;
    ResetIsNeutral(Neutral);
    if sc.waitTime(s1.ctl) != 0 {
      var s3 := Tick(sc)(s2).1;
      assert Run(sc, s, 3) == s3 by {
        assert Run(sc, s2, 1) == s3;
        assert Run(sc, s1, 2) == s3;
      }
      assert Reports(sc, s2, 1) == [Neutral];
      assert Reports(sc, s1, 2) == [Neutral, Neutral];
    } else {
      assert Run(sc, s, 2) == s2 by {
        assert Run(sc, s1, 1) == s2;
      }
      assert Reports(sc, s1, 1) == [Neutral];
    }
  }

  /** The gate state an action cycle ends in: hold and wait spent, `waiting` left set only when there was nothing to wait. */
  function Settled<C>(sc: Script<C>, c: C, holdTime: nat): Gated<C> {
    Gated(c, false, sc.waitTime(c) == 0, if holdTime == 0 then DEFAULT_HOLD_TIME else holdTime)
  }

  /** From a ready state, the ticks of `n > 0` action cycles carry the phase variables exactly `n` actions forward. */
  lemma {:induction false} RunFollowsActions<C>(sc: Script<C>, s: Gated<C>, n: nat)
    requires Ready(sc, s) && n > 0
    ensures Run(sc, s, Ticks(sc, s.ctl, n)) == Settled(sc, Actions(sc, s.ctl, n), s.holdTime)
    ensures Ready(sc, Run(sc, s, Ticks(sc, s.ctl, n)))
    decreases n
  {
    Cycle(sc, s);
    var s1 := Run(sc, s, CycleLen(sc, s.ctl));
    assert Ticks(sc, s.ctl, n) == CycleLen(sc, s.ctl) + Ticks(sc, s1.ctl, n - 1);
    assert Actions(sc, s.ctl, n) == Actions(sc, s1.ctl, n - 1);
    if n > 1 {
      RunFollowsActions(sc, s1, n - 1);
      RunAdd(sc, s, CycleLen(sc, s.ctl), Ticks(sc, s1.ctl, n - 1));
    }
  }

  /** At power-up the gate holds once and waits once if `wait_time` is non-zero, then the first action runs. */
  lemma StartUp<C>(sc: Script<C>, c: C)
    ensures var k := if sc.waitTime(c) != 0 then 2 else 1;
      Ready(sc, Run(sc, Start(c), k)) && Run(sc, Start(c), k).ctl == c
      && Reports(sc, Start(c), k) == if k == 2 then [Neutral, Neutral] else [Neutral]
  {
    var s0 := Start(c);
    var s1 := Tick(sc)(s0).1;
    ResetIsNeutral(Neutral);
    assert Run(sc, s1, 0) == s1;
    if sc.waitTime(c) != 0 {
      var s2 := Tick(sc)(s1).1;
      assert Run(sc, s1, 1) == s2 by {
        assert Run(sc, s2, 0) == s2;
      }
      assert Reports(sc, s1, 1) == [Neutral];
    }
  }

  // ---------------------------------------------------------------------------
  // Runs of actions

  /** `a` actions and then `b` more are `a + b` actions. */
  lemma ActionsAdd<C>(sc: Script<C>, c: C, a: nat, b: nat)
    ensures Actions(sc, c, a + b) == Actions(sc, Actions(sc, c, a), b)
    ensures ActReports(sc, c, a + b) == ActReports(sc, c, a) + ActReports(sc, Actions(sc, c, a), b)
    ensures Ticks(sc, c, a + b) == Ticks(sc, c, a) + Ticks(sc, Actions(sc, c, a), b)
  {
    FinalAdd(sc.act, c, a, b);
    TraceAdd(sc.act, c, a, b);
    TotalAdd(sc.act, CycleCost(sc), c, a, b);
  }

  /**
   * The ticks of `n > 0` actions are the first action's cycle and then the ticks of the other `n - 1`.
   * Stated on its own so that a proof about time unfolds only the tick count, not the run and its reports.
   */
  lemma TicksFirst<C>(sc: Script<C>, c: C, n: nat)
    requires n > 0
    ensures Ticks(sc, c, n) == CycleLen(sc, c) + Ticks(sc, sc.act(c).1, n - 1)
  {
  }

  /** Report `i` of a run of actions is the report of the action taken after `i` actions. */
  lemma ActReportAt<C>(sc: Script<C>, c: C, n: nat, i: nat)
    requires i < n
    ensures ActReports(sc, c, n)[i] == sc.act(Actions(sc, c, i)).0
  {
    TraceAt(sc.act, c, n, i);
  }

  /** Whether each of `n` consecutive actions leaves `wait_time` non-zero, one per action. */
  function ActWaits<C>(sc: Script<C>, c: C, n: nat): (w: seq<bool>)
    ensures |w| == n
    decreases n
  {
    if n == 0 then [] else [sc.waitTime(sc.act(c).1) != 0] + ActWaits(sc, sc.act(c).1, n - 1)
  }

  /** Action reports spread out over ticks: each report, then the neutral hold, then a neutral wait where the action set one. */
  function Expand(rs: seq<Report>, ws: seq<bool>): seq<Report>
    requires |rs| == |ws|
  {
    if |rs| == 0 then [] else [rs[0], Neutral] + (if ws[0] then [Neutral] else []) + Expand(rs[1..], ws[1..])
  }

  /** Expanding one more action in front puts its ticks in front. */
  lemma ExpandCons(r: Report, w: bool, rs: seq<Report>, ws: seq<bool>)
    requires |rs| == |ws|
    ensures Expand([r] + rs, [w] + ws) == [r, Neutral] + (if w then [Neutral] else []) + Expand(rs, ws)
  {
    assert ([r] + rs)[1..] == rs && ([w] + ws)[1..] == ws;
  }

  /**
   * The reports of `t = a + b` ticks are those of `a` ticks, then of `b` more: `TraceAdd` for the gate.
   * The total `t` is passed in so that the caller's term for it is matched as is, without the solver rewriting sums.
   */
  lemma ReportsSplit<C>(sc: Script<C>, s: Gated<C>, a: nat, b: nat, t: nat)
    requires t == a + b
    ensures Reports(sc, s, t) == Reports(sc, s, a) + Reports(sc, Run(sc, s, a), b)
  {
    RunAdd(sc, s, a, b);
  }

  /** From a ready state, the reports of `n` action cycles are the `n` action reports, each followed by its hold and its wait. */
  lemma {:induction false} RunReportsFollowActions<C>(sc: Script<C>, s: Gated<C>, n: nat)
    requires Ready(sc, s)
    ensures Reports(sc, s, Ticks(sc, s.ctl, n)) == Expand(ActReports(sc, s.ctl, n), ActWaits(sc, s.ctl, n))
    decreases n
  {
    if n > 0 {
      var c := s.ctl;
      var c1 := sc.act(c).1;
      Cycle(sc, s);
      var t1 := CycleLen(sc, c);
      var s1 := Run(sc, s, t1);
      var t2 := Ticks(sc, c1, n - 1);
      assert Ticks(sc, c, n) == t1 + t2;
      assert ActReports(sc, c, n) == [sc.act(c).0] + ActReports(sc, c1, n - 1);
      RunReportsFollowActions(sc, s1, n - 1);
      ReportsSplit(sc, s, t1, t2, Ticks(sc, c, n));
      ExpandCons(sc.act(c).0, sc.waitTime(c1) != 0, ActReports(sc, c1, n - 1), ActWaits(sc, c1, n - 1));
    }
  }
}

/**
 * The echo-hold timing of eatMeat.c, tick by tick: every produced report is
 * replayed `ECHOES` times, a pending `waitJump` is spent one neutral report
 * (plus its echoes) at a time, and the phase logic runs only when both are
 * exhausted.  The lemmas here lift single ticks to whole action cycles, so that
 * the script lemmas can be stated one action at a time.
 */
module EatMeatTiming {
  import opened Basics
  import opened Hid
  import opened Machine
  import opened EatMeat

  /** Running `a` ticks and then `b` more is running `a + b` ticks. */
  lemma RunAdd(s: ValidState, a: nat, b: nat)
    ensures Run(s, a + b) == Run(Run(s, a), b)
    ensures Reports(s, a + b) == Reports(s, a) + Reports(Run(s, a), b)
  {
    FinalAdd(Tick, s, a, b);
    TraceAdd(Tick, s, a, b);
  }

  /** While echoes are pending, each tick replays the saved report and only counts the echoes down. */
  lemma {:induction false} EchoReplay(s: State, k: nat)
    requires Valid(s.ctl) && k <= s.echoes
    ensures Run(s, k) == s.(echoes := s.echoes - k)
    ensures Reports(s, k) == Repeat(s.lastReport, k)
    decreases k
  {
    if k > 0 {
      EchoReplay(Next(s).1, k - 1);
    }
  }

  /** A tick with no echo pending is saved and then replayed on exactly the next `ECHOES` ticks, which change nothing else. */
  lemma Echoed(s: State)
    requires Valid(s.ctl) && s.echoes == 0
    ensures Next(s).1.echoes == ECHOES && Next(s).1.lastReport == Next(s).0
    ensures Reports(s, 1 + ECHOES) == Repeat(Next(s).0, 1 + ECHOES)
    ensures Run(s, 1 + ECHOES) == Next(s).1.(echoes := 0)
  {
    EchoReplay(Next(s).1, ECHOES);
  }

  /**
   * A non-echo tick with `waitJump` pending sends the neutral report, counts `waitJump` down,
   * and re-arms the five echoes with that neutral report. (With echoes pending, `EchoReplay` applies instead.)
   */
  lemma WaitTick(s: State)
    requires Valid(s.ctl) && s.echoes == 0 && s.waitJump > 0
    ensures Next(s).0 == Neutral
    ensures Next(s).1 == s.(waitJump := s.waitJump - 1, echoes := ECHOES, lastReport := Neutral)
  {
  }

  /** A pending `waitJump` of w costs w neutral reports, each echoed, and leaves the phase variables alone. */
  lemma {:induction false} WaitDrain(s: State)
    requires Valid(s.ctl) && s.echoes == 0
    ensures Run(s, (1 + ECHOES) * s.waitJump)
      == s.(waitJump := 0, lastReport := if s.waitJump == 0 then s.lastReport else Neutral)
    ensures Reports(s, (1 + ECHOES) * s.waitJump) == Repeat(Neutral, (1 + ECHOES) * s.waitJump)
    decreases s.waitJump
  {
    if s.waitJump > 0 {
      var w := s.waitJump;
      var s1 := Run(s, 1 + ECHOES);
      Echoed(s);
      assert s1 == s.(waitJump := w - 1, lastReport := Neutral);
      WaitDrain(s1);
      RunAdd(s, 1 + ECHOES, (1 + ECHOES) * (w - 1));
      assert (1 + ECHOES) * w == (1 + ECHOES) + (1 + ECHOES) * (w - 1);
      RepeatAdd(Neutral, 1 + ECHOES, (1 + ECHOES) * (w - 1));
    }
  }

  /** The phase logic runs on the next tick: no echo and no wait pending. */
  predicate Ready(s: State) {
    s.echoes == 0 && s.waitJump == 0
  }

  /** Ticks taken by one action: the action tick, its echoes, then its wait, each wait tick echoed. */
  function CycleLen(c: Control): nat {
    (1 + ECHOES) * (1 + (if InBounds(c) then Act(c).waitJump else 0))
  }

  /**
   * One action cycle from a ready state: the action's report is sent
   * `1 + ECHOES` times, then the neutral report `(1 + ECHOES) * waitJump`
   * times, and the engine is ready again with the phase variables the action
   * produced.
   */
  lemma Cycle(s: State)
    requires Valid(s.ctl) && Ready(s)
    ensures Ready(Run(s, CycleLen(s.ctl)))
    ensures Run(s, CycleLen(s.ctl)).ctl == Act(s.ctl).ctl
    ensures Reports(s, CycleLen(s.ctl))
      == Repeat(Act(s.ctl).report, 1 + ECHOES) + Repeat(Neutral, (1 + ECHOES) * Act(s.ctl).waitJump)
  {
    var w := Act(s.ctl).waitJump;
    Echoed(s);
    var s1 := Run(s, 1 + ECHOES);
    WaitDrain(s1);
    RunAdd(s, 1 + ECHOES, (1 + ECHOES) * w);
  }

  /**
   * One pass through the phase logic, as a step: the report it produces and
   * the next phase variables.  Outside the cursor invariant, which no run from
   * a valid state reaches (`ActRunValid`), the step stands still.
   */
  function ActStep(c: Control): (Report, Control) {
    if InBounds(c) then (Act(c).report, Act(c).ctl) else (Neutral, c)
  }

  /** The phase variables after `n` actions. */
  function ActRun(c: Control, n: nat): Control {
    Final(ActStep, c, n)
  }

  /** The reports of `n` consecutive actions, one per action. */
  function ActReports(c: Control, n: nat): seq<Report> {
    Trace(ActStep, c, n)
  }

  /** The cursor invariant holds after any number of actions from a state that satisfies it. */
  lemma {:induction false} ActRunValid(c: Control, n: nat)
    requires Valid(c)
    ensures Valid(ActRun(c, n))
    decreases n
  {
    if n > 0 {
      ActRunValid(Act(c).ctl, n - 1);
    }
  }

  /** Ticks taken by `n` consecutive action cycles. */
  function Ticks(c: Control, n: nat): nat {
    Total(ActStep, CycleLen, c, n)
  }

  /** A run of `n > 0` actions is the first action followed by a run of `n - 1`. */
  lemma ActRunFirst(c: Control, n: nat)
    requires InBounds(c) && n > 0
    ensures ActRun(c, n) == ActRun(Act(c).ctl, n - 1)
    ensures ActReports(c, n) == [Act(c).report] + ActReports(Act(c).ctl, n - 1)
    ensures Ticks(c, n) == CycleLen(c) + Ticks(Act(c).ctl, n - 1)
  {
  }

  /**
   * The ticks of `n > 0` actions are the first action's cycle and then the ticks of the other `n - 1`.
   * Only the tick count of `ActRunFirst`: using it keeps the run and its reports out of a proof about time.
   */
  lemma TicksFirst(c: Control, n: nat)
    requires InBounds(c) && n > 0
    ensures Ticks(c, n) == CycleLen(c) + Ticks(Act(c).ctl, n - 1)
  {
  }

  /** Report `i` of a run of actions is the report of the action taken from the state reached after `i` actions. */
  lemma ActReportAt(c: Control, n: nat, i: nat)
    requires i < n
    ensures ActReports(c, n)[i] == ActStep(ActRun(c, i)).0
  {
    TraceAt(ActStep, c, n, i);
  }

  /** `a` actions and then `b` more are `a + b` actions. */
  lemma ActRunAdd(c: Control, a: nat, b: nat)
    ensures ActRun(c, a + b) == ActRun(ActRun(c, a), b)
    ensures ActReports(c, a + b) == ActReports(c, a) + ActReports(ActRun(c, a), b)
    ensures Ticks(c, a + b) == Ticks(c, a) + Ticks(ActRun(c, a), b)
  {
    FinalAdd(ActStep, c, a, b);
    TraceAdd(ActStep, c, a, b);
    TotalAdd(ActStep, CycleLen, c, a, b);
  }

  /** The phase variables after `a + b` actions, reached through those after `a`: `FinalAdd` instantiated at `ActStep`, so callers need not unfold the generic iteration. */
  lemma ActRunSplit(c: Control, a: nat, b: nat)
    ensures ActRun(c, a + b) == ActRun(ActRun(c, a), b)
  {
    FinalAdd(ActStep, c, a, b);
  }

  /** Reaching `m` in `a` actions and `d` from `m` in `b` more is reaching `d` in `n = a + b`. */
  lemma ActRunChain(c: Control, a: nat, m: Control, b: nat, d: Control, n: nat)
    requires ActRun(c, a) == m && ActRun(m, b) == d && n == a + b
    ensures ActRun(c, n) == d
  {
    FinalAdd(ActStep, c, a, b);
  }

  /** The reports of `a + b` actions, split after the first `a`: `TraceAdd` instantiated at `ActStep`, so callers need not unfold the generic iteration. */
  lemma ActReportsSplit(c: Control, a: nat, b: nat)
    ensures ActReports(c, a + b) == ActReports(c, a) + ActReports(ActRun(c, a), b)
  {
    TraceAdd(ActStep, c, a, b);
  }

  /** From a ready state, the ticks of `n` action cycles carry the phase logic exactly `n` actions forward. */
  lemma {:induction false} RunFollowsActions(s: State, n: nat)
    requires Valid(s.ctl) && Ready(s)
    ensures Ready(Run(s, Ticks(s.ctl, n)))
    ensures Run(s, Ticks(s.ctl, n)).ctl == ActRun(s.ctl, n)
    decreases n
  {
    if n > 0 {
      Cycle(s);
      var s1 := Run(s, CycleLen(s.ctl));
      ActRunFirst(s.ctl, n);
      RunFollowsActions(s1, n - 1);
      RunAdd(s, CycleLen(s.ctl), Ticks(s1.ctl, n - 1));
    }
  }

  /** The wait one action sets (none outside the cursor invariant, where the step stands still). */
  function ActWait(c: Control): nat {
    if InBounds(c) then Act(c).waitJump else 0
  }

  /** The wait each of `n` consecutive actions sets, one per action. */
  function ActWaits(c: Control, n: nat): (w: seq<nat>)
    ensures |w| == n
    decreases n
  {
    if n == 0 then [] else [ActWait(c)] + ActWaits(ActStep(c).1, n - 1)
  }

  /** Wait `i` of a run of actions is the wait set by the action taken from the state reached after `i` actions. */
  lemma {:induction false} ActWaitAt(c: Control, n: nat, i: nat)
    requires i < n
    ensures ActWaits(c, n)[i] == ActWait(ActRun(c, i))
    decreases i
  {
    if i > 0 {
      ActWaitAt(ActStep(c).1, n - 1, i - 1);
    }
  }

  /** The waits of a run of actions, added up. */
  function Sum(ws: seq<nat>): nat {
    if |ws| == 0 then 0 else ws[0] + Sum(ws[1..])
  }

  /** The ticks of `n` actions: `1 + ECHOES` for each action and `1 + ECHOES` for each unit of the waits they set. */
  lemma {:induction false} TicksFromWaits(c: Control, n: nat)
    ensures Ticks(c, n) == (1 + ECHOES) * (n + Sum(ActWaits(c, n)))
    decreases n
  {
    if n > 0 {
      var c1 := ActStep(c).1;
      var w := ActWait(c);
      var ws := ActWaits(c1, n - 1);
      TicksFromWaits(c1, n - 1);
      assert Ticks(c, n) == (1 + ECHOES) * (1 + w) + Ticks(c1, n - 1);
      assert ActWaits(c, n) == [w] + ws;
      assert ([w] + ws)[1..] == ws;
      assert (1 + ECHOES) * (1 + w) + (1 + ECHOES) * (n - 1 + Sum(ws)) == (1 + ECHOES) * (n + (w + Sum(ws)));
    }
  }

  /**
   * Action reports spread out over ticks: each report sent `1 + ECHOES`
   * times, then the neutral report `1 + ECHOES` times per unit of the wait
   * that action set.
   */
  function Expand(rs: seq<Report>, ws: seq<nat>): seq<Report>
    requires |rs| == |ws|
  {
    if |rs| == 0 then []
    else Repeat(rs[0], 1 + ECHOES) + Repeat(Neutral, (1 + ECHOES) * ws[0]) + Expand(rs[1..], ws[1..])
  }

  /**
   * The reports of `t = a + b` ticks are those of `a` ticks, then of `b` more: `TraceAdd` for the tick machine.
   * The total `t` is passed in so that the caller's term for it is matched as is, without the solver rewriting sums.
   */
  lemma ReportsSplit(s: ValidState, a: nat, b: nat, t: nat)
    requires t == a + b
    ensures Reports(s, t) == Reports(s, a) + Reports(Run(s, a), b)
  {
    RunAdd(s, a, b);
  }

  /** Expanding one more action in front puts its ticks in front. */
  lemma ExpandCons(r: Report, w: nat, rs: seq<Report>, ws: seq<nat>)
    requires |rs| == |ws|
    ensures Expand([r] + rs, [w] + ws) == Repeat(r, 1 + ECHOES) + Repeat(Neutral, (1 + ECHOES) * w) + Expand(rs, ws)
  {
    assert ([r] + rs)[1..] == rs && ([w] + ws)[1..] == ws;
  }

  /** From a ready state, the reports of `n` action cycles are the `n` action reports, each echoed and followed by its wait. */
  lemma {:induction false} RunReportsFollowActions(s: State, n: nat)
    requires Valid(s.ctl) && Ready(s)
    ensures Reports(s, Ticks(s.ctl, n)) == Expand(ActReports(s.ctl, n), ActWaits(s.ctl, n))
    decreases n
  {
    if n > 0 {
      var c := s.ctl;
      var c1 := Act(c).ctl;
      Cycle(s);
      var t1 := CycleLen(c);
      var s1 := Run(s, t1);
      var t2 := Ticks(c1, n - 1);
      ActRunFirst(c, n);
      RunReportsFollowActions(s1, n - 1);
      ReportsSplit(s, t1, t2, Ticks(c, n));
      assert ActWaits(c, n) == [Act(c).waitJump] + ActWaits(c1, n - 1);
      ExpandCons(Act(c).report, Act(c).waitJump, ActReports(c1, n - 1), ActWaits(c1, n - 1));
    }
  }

  /** Every report sent is one the phase logic produced: a replay, the neutral wait report, or an action's report. */
  lemma ReportOrigin(s: State)
    requires Valid(s.ctl)
    ensures Next(s).0 == s.lastReport || Next(s).0 == Neutral || Next(s).0 == Act(s.ctl).report
    ensures Next(s).0 != s.lastReport && Next(s).0 != Neutral ==> Ready(s)
  {
  }
}

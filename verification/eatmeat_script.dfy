/**
 * The phase graph of eatMeat.c, one action at a time: the controller re-sync
 * burst, the table walks, the counted blade-change loop, the eat loop, the
 * conditional exit to `Done`, and what `Done` does forever after.
 */
module EatMeatScript {
  import opened Basics
  import opened Hid
  import opened Machine
  import opened Resync
  import opened EatMeat
  import opened EatMeatTiming

  // ---------------------------------------------------------------------------
  // Controller re-sync

  /** Up to count 101 each sync action only bumps `report_count`. */
  lemma {:induction false} SyncRun(c: Control, j: nat)
    requires Valid(c) && c.phase == SyncController && c.reportCount + j <= 101
    ensures ActRun(c, j) == c.(reportCount := c.reportCount + j)
    decreases j
  {
    if j > 0 {
      var c1 := c.(reportCount := c.reportCount + 1);
      assert Act(c).ctl == c1;
      SyncRun(c1, j - 1);
    }
  }

  /** Up to count 101 the sync actions emit the scheduled report for their count. */
  lemma SyncReports(c: Control, j: nat)
    requires Valid(c) && c.phase == SyncController && c.reportCount + j <= 101
    ensures forall i :: 0 <= i < j ==> ActReports(c, j)[i] == SyncReport(c.reportCount + i)
  {
    forall i | 0 <= i < j
      ensures ActReports(c, j)[i] == SyncReport(c.reportCount + i)
    {
      ActReportAt(c, j, i);
      SyncRun(c, i);
    }
  }

  /** Up to count 101 the sync actions wait nothing: each costs one report and its echoes. */
  lemma {:induction false} SyncTicks(c: Control, j: nat)
    requires Valid(c) && c.phase == SyncController && c.reportCount + j <= 101
    ensures Ticks(c, j) == (1 + ECHOES) * j
    decreases j
  {
    if j > 0 {
      var c1 := c.(reportCount := c.reportCount + 1);
      assert Act(c).ctl == c1 && Act(c).waitJump == 0;
      SyncTicks(c1, j - 1);
    }
  }

  /**
   * From power-up the first 101 sync actions send L+R exactly on actions 25
   * and 50, A exactly on 75 and 100, and neutral on all the others.
   */
  lemma SyncSchedule()
    ensures var r := ActReports(InitControl, 101);
      forall i :: 0 <= i < 101 ==>
        && (r[i] == Press({L, R}, Center) <==> i == 25 || i == 50)
        && (r[i] == Press({A}, Center) <==> i == 75 || i == 100)
        && (r[i] == Neutral <==> i != 25 && i != 50 && i != 75 && i != 100)
  {
    SyncReports(InitControl, 101);
  }

  /**
   * The sync phase lasts 101 actions; the 102nd sends neutral, sets
   * `waitJump = 200` and enters PREPARE with `report_count = 1`, not 0.
   */
  lemma SyncExit()
    ensures forall j :: 0 <= j <= 101 ==> ActRun(InitControl, j).phase == SyncController
    ensures Act(ActRun(InitControl, 101)) == Outcome(Neutral, InitControl.(phase := Prepare, reportCount := 1), 200)
    ensures ActRun(InitControl, 102) == InitControl.(phase := Prepare, reportCount := 1)
  {
    forall j | 0 <= j <= 101
      ensures ActRun(InitControl, j).phase == SyncController
    {
      SyncRun(InitControl, j);
    }
    SyncRun(InitControl, 101);
    ActRunSplit(InitControl, 101, 1);
  }

  /** The 101 sync actions take 606 ticks, after which the engine is ready to act with the count at 101. */
  lemma SyncDuration()
    ensures Ticks(InitControl, 101) == 606
    ensures Run(Init, 606).ctl == InitControl.(reportCount := 101) && Ready(Run(Init, 606))
  {
    SyncTicks(InitControl, 101);
    SyncRun(InitControl, 101);
    RunFollowsActions(Init, 101);
  }

  /**
   * Tick by tick, sync action `i` (up to 100) starts at tick `6 * i` and sends
   * its scheduled report six times over: once and then its five echoes.
   */
  lemma SyncTickSchedule(i: nat)
    requires i <= 100
    ensures Reports(Run(Init, (1 + ECHOES) * i), 1 + ECHOES) == Repeat(SyncReport(i), 1 + ECHOES)
  {
    SyncTicks(InitControl, i);
    SyncRun(InitControl, i);
    RunFollowsActions(Init, i);
    var s := Run(Init, (1 + ECHOES) * i);
    assert s.ctl == InitControl.(reportCount := i);
    assert Act(s.ctl) == Outcome(SyncReport(i), InitControl.(reportCount := i + 1), 0);
    Cycle(s);
  }

  // ---------------------------------------------------------------------------
  // Table phases

  /**
   * A table phase walks its table in order, one row per action: the cursor
   * moves up by exactly one each time, and on the last row it returns to 0
   * and the phase moves on.
   */
  lemma {:induction false} TableWalk(c: Control, j: nat)
    requires Valid(c) && IsTablePhase(c.phase) && c.mapPos + j <= |Table(c.phase)|
    ensures c.mapPos + j < |Table(c.phase)| ==> ActRun(c, j) == c.(mapPos := c.mapPos + j)
    ensures c.mapPos + j == |Table(c.phase)| ==> ActRun(c, j) == c.(phase := AfterTable(c), mapPos := 0)
    decreases j
  {
    if j > 0 {
      var c1 := Act(c).ctl;
      if c.mapPos + 1 < |Table(c.phase)| {
        assert c1 == c.(mapPos := c.mapPos + 1);
        TableWalk(c1, j - 1);
      } else {
        assert j == 1;
      }
    }
  }

  /** Each action of a table phase asserts the row under the cursor. */
  lemma TableReports(c: Control, j: nat)
    requires Valid(c) && IsTablePhase(c.phase) && c.mapPos + j <= |Table(c.phase)|
    ensures forall i :: 0 <= i < j ==> ActReports(c, j)[i] == RowReport(Table(c.phase)[c.mapPos + i])
  {
    forall i | 0 <= i < j
      ensures ActReports(c, j)[i] == RowReport(Table(c.phase)[c.mapPos + i])
    {
      ActReportAt(c, j, i);
      TableWalk(c, i);
    }
  }

  /** A table action sets the wait of the row under the cursor. */
  lemma TableWait(c: Control)
    requires IsTablePhase(c.phase) && c.mapPos < |Table(c.phase)|
    ensures ActWait(c) == Table(c.phase)[c.mapPos].duration as nat
  {
  }

  /** Action `i` of a table walk sets the wait of the row `i` places after the cursor. */
  lemma TableWaitAt(c: Control, j: nat, i: nat)
    requires Valid(c) && IsTablePhase(c.phase) && c.mapPos + j <= |Table(c.phase)| && i < j
    ensures ActWaits(c, j)[i] == Table(c.phase)[c.mapPos + i].duration as nat
  {
    ActWaitAt(c, j, i);
    TableWalk(c, i);
    TableWait(ActRun(c, i));
  }

  /** Each action of a table phase sets the wait of the row under the cursor. */
  lemma TableWaits(c: Control, j: nat)
    requires Valid(c) && IsTablePhase(c.phase) && c.mapPos + j <= |Table(c.phase)|
    ensures forall i :: 0 <= i < j ==> ActWaits(c, j)[i] == Table(c.phase)[c.mapPos + i].duration as nat
  {
    forall i | 0 <= i < j
      ensures ActWaits(c, j)[i] == Table(c.phase)[c.mapPos + i].duration as nat
    {
      TableWaitAt(c, j, i);
    }
  }

  /**
   * The wait each action sets, in units of `1 + ECHOES` neutral reports: a
   * table row's own duration, 200 when SYNC hands over to PREPARE and 0 for
   * the burst before it, 20 for each blade-change step, 10 for each EATING
   * press, and 0 in DONE.
   */
  lemma ActionWaits(c: Control)
    requires InBounds(c)
    ensures IsTablePhase(c.phase) ==> Act(c).waitJump == Table(c.phase)[c.mapPos].duration as nat
    ensures c.phase == SyncController ==> Act(c).waitJump == if c.reportCount > 100 then 200 else 0
    ensures c.phase == ChangePos || c.phase == ChangePre || c.phase == Changing ==> Act(c).waitJump == 20
    ensures c.phase == Eating ==> Act(c).waitJump == 10
    ensures c.phase == Done ==> Act(c).waitJump == 0
  {
  }

  /** The durations of a stretch of table rows, added up. */
  function Durations(t: seq<Row>): nat {
    if |t| == 0 then 0 else t[0].duration as nat + Durations(t[1..])
  }

  /** Waits that match the rows from `m` on, one for one, add up to those rows' durations. */
  lemma {:induction false} SumDurations(ws: seq<nat>, t: seq<Row>, m: nat)
    requires m + |ws| == |t|
    requires forall i :: 0 <= i < |ws| ==> ws[i] == t[m + i].duration as nat
    ensures Sum(ws) == Durations(t[m..])
    decreases |ws|
  {
    if |ws| == 0 {
      assert t[m..] == [];
    } else {
      assert t[m..][1..] == t[m + 1..];
      forall i | 0 <= i < |ws[1..]|
        ensures ws[1..][i] == t[m + 1 + i].duration as nat
      {
        assert ws[1..][i] == ws[i + 1];
      }
      SumDurations(ws[1..], t, m + 1);
    }
  }

  /** The whole of a table phase from its first row. */
  lemma TablePhase(c: Control)
    requires Valid(c) && IsTablePhase(c.phase) && c.mapPos == 0
    ensures ActRun(c, |Table(c.phase)|) == c.(phase := AfterTable(c), mapPos := 0)
  {
    TableWalk(c, |Table(c.phase)|);
  }

  /** A whole table phase takes `1 + ECHOES` ticks per row plus `1 + ECHOES` per unit of the table's durations. */
  lemma TablePhaseTicks(c: Control)
    requires Valid(c) && IsTablePhase(c.phase) && c.mapPos == 0
    ensures Ticks(c, |Table(c.phase)|) == (1 + ECHOES) * (|Table(c.phase)| + Durations(Table(c.phase)))
  {
    var t := Table(c.phase);
    TicksFromWaits(c, |t|);
    TableWaits(c, |t|);
    SumDurations(ActWaits(c, |t|), t, 0);
    assert t[0..] == t;
  }

  // ---------------------------------------------------------------------------
  // The blade-change loop

  /** CHANGING moves the cursor down `line` times, then right `row` times, then presses A and leaves. */
  lemma {:induction false} ChangingLoop(c: Control)
    requires Valid(c) && c.phase == Changing
    ensures ActRun(c, c.line + c.row + 1)
      == c.(line := 0, row := 0, phase := if c.bladePos % 3 == 0 then EatPre else ChangePos)
    decreases c.line + c.row
  {
    var c1 := Act(c).ctl;
    ActRunFirst(c, c.line + c.row + 1);
    if c.line > 0 {
      assert c1 == c.(line := c.line - 1);
      ChangingLoop(c1);
    } else if c.row > 0 {
      assert c1 == c.(row := c.row - 1);
      ChangingLoop(c1);
    }
  }

  /** The reports of CHANGING: the hat down `line` times, right `row` times, then A. */
  lemma {:induction false} ChangingMoves(c: Control)
    requires Valid(c) && c.phase == Changing
    ensures ActReports(c, c.line + c.row + 1)
      == Repeat(Press({}, Bottom), c.line) + (Repeat(Press({}, Right), c.row) + [Press({A}, Center)])
    decreases c.line + c.row
  {
    var n := c.line + c.row + 1;
    var c1 := Act(c).ctl;
    ActRunFirst(c, n);
    if c.line > 0 {
      assert c1 == c.(line := c.line - 1);
      ChangingMoves(c1);
    } else if c.row > 0 {
      assert c1 == c.(row := c.row - 1);
      ChangingMoves(c1);
    }
  }

  /** The grid line of the blade after `b`, counted without division. */
  function GridLine(b: nat): nat {
    if b < 5 then 0 else 1 + GridLine(b - 5)
  }

  /** The grid column of the blade after `b`, counted without division. */
  function GridColumn(b: nat): nat {
    if b < 5 then b else GridColumn(b - 5)
  }

  /** Blades sit five to a line: line `b / 5`, column `b % 5`. */
  lemma {:induction false} GridDivMod(b: nat)
    ensures GridLine(b) == b / 5 && GridColumn(b) == b % 5
  {
    if b >= 5 {
      GridDivMod(b - 5);
    }
  }

  /** CHANGE_POS moves on to blade `b + 1` and aims at its grid cell; the hat goes down unless `(b + 1) % 3 == 1`. */
  lemma ChangePosAction(c: Control)
    requires c.phase == ChangePos
    ensures var b := c.bladePos;
      Act(c) == Outcome(Press({}, if (b + 1) % 3 == 1 then Center else Bottom),
                        c.(bladePos := b + 1, line := GridLine(b), row := GridColumn(b), phase := ChangePre), 20)
  {
    GridDivMod(c.bladePos);
  }

  /** Actions needed to select the blade after `b`: CHANGE_POS, CHANGE_PRE, the moves to its grid cell, and A. */
  function BladeLen(b: nat): nat {
    3 + GridLine(b) + GridColumn(b)
  }

  /** The first two actions of a blade change: CHANGE_POS and CHANGE_PRE, ending in CHANGING aimed at the grid cell. */
  lemma BladeChangeHead(c: Control)
    requires Valid(c) && c.phase == ChangePos
    ensures var b := c.bladePos;
      ActRun(c, 2) == c.(bladePos := b + 1, line := GridLine(b), row := GridColumn(b), phase := Changing)
    ensures var b := c.bladePos;
      ActReports(c, 2) == [Press({}, if (b + 1) % 3 == 1 then Center else Bottom), Press({A}, Center)]
  {
    ChangePosAction(c);
  }

  /**
   * CHANGE_POS selects blade `b + 1`, which sits on grid line `b / 5` and
   * column `b % 5`, and after the walk to it the loop either goes on to the
   * next blade or, after every third blade, to EAT_PRE.
   */
  lemma BladeChange(c: Control)
    requires Valid(c) && c.phase == ChangePos
    ensures var b := c.bladePos;
      ActRun(c, BladeLen(b))
      == c.(bladePos := b + 1, line := 0, row := 0, phase := if (b + 1) % 3 == 0 then EatPre else ChangePos)
  {
    BladeChangeHead(c);
    var c2 := ActRun(c, 2);
    ChangingLoop(c2);
    ActRunSplit(c, 2, c2.line + c2.row + 1);
  }

  /**
   * The reports of one blade change: the hat down unless `(b + 1) % 3 == 1`,
   * A, the hat down once per grid line and right once per column, then A.
   */
  lemma BladeChangeReports(c: Control)
    requires Valid(c) && c.phase == ChangePos
    ensures var b := c.bladePos;
      ActReports(c, BladeLen(b))
      == [Press({}, if (b + 1) % 3 == 1 then Center else Bottom), Press({A}, Center)]
         + (Repeat(Press({}, Bottom), GridLine(b)) + (Repeat(Press({}, Right), GridColumn(b)) + [Press({A}, Center)]))
  {
    BladeChangeHead(c);
    var c2 := ActRun(c, 2);
    var n := c2.line + c2.row + 1;
    ChangingMoves(c2);
    ActReportsSplit(c, 2, n);
  }

  /** The residues modulo 3 of the three blades after a multiple of three. */
  lemma Mod3Successors(b: nat)
    requires b % 3 == 0
    ensures (b + 1) % 3 == 1 && (b + 2) % 3 == 2 && (b + 3) % 3 == 0
  {
  }

  /** From a multiple of three, the first two blade changes return to CHANGE_POS. */
  lemma TwoBlades(c: Control)
    requires Valid(c) && c.phase == ChangePos && c.bladePos % 3 == 0
    ensures var b := c.bladePos;
      ActRun(c, BladeLen(b) + BladeLen(b + 1)) == c.(bladePos := b + 2, line := 0, row := 0)
  {
    var b := c.bladePos;
    var c1 := c.(bladePos := b + 1, line := 0, row := 0);
    var c2 := c.(bladePos := b + 2, line := 0, row := 0);
    assert ActRun(c, BladeLen(b)) == c1 by {
      BladeChange(c);
      Mod3Successors(b);
    }
    assert ActRun(c1, BladeLen(b + 1)) == c2 by {
      BladeChange(c1);
      Mod3Successors(b);
      assert (c1.bladePos + 1) % 3 == 2;
    }
    ActRunChain(c, BladeLen(b), c1, BladeLen(b + 1), c2, BladeLen(b) + BladeLen(b + 1));
  }

  /** Actions for the three blade changes of one round, from blade `b`. */
  function ThreeBladesLen(b: nat): nat {
    BladeLen(b) + BladeLen(b + 1) + BladeLen(b + 2)
  }

  /** Starting on a multiple of three, the change loop selects exactly three blades and then enters EAT_PRE. */
  lemma ThreeBlades(c: Control)
    requires Valid(c) && c.phase == ChangePos && c.bladePos % 3 == 0
    ensures ActRun(c, ThreeBladesLen(c.bladePos)) == c.(bladePos := c.bladePos + 3, line := 0, row := 0, phase := EatPre)
  {
    var b := c.bladePos;
    var l, m := BladeLen(b) + BladeLen(b + 1), BladeLen(b + 2);
    var c2 := c.(bladePos := b + 2, line := 0, row := 0);
    var e := c.(bladePos := b + 3, line := 0, row := 0, phase := EatPre);
    assert ActRun(c, l) == c2 by {
      TwoBlades(c);
    }
    assert ActRun(c2, m) == e by {
      BladeChange(c2);
      Mod3Successors(b);
      assert (c2.bladePos + 1) % 3 == 0;
    }
    ActRunChain(c, l, c2, m, e, ThreeBladesLen(b));
  }

  // ---------------------------------------------------------------------------
  // The eat loop

  /** Before the exit, each EATING action only counts up `report_count`. */
  lemma {:induction false} EatingPrefix(c: Control, j: nat)
    requires Valid(c) && c.phase == Eating && c.reportCount + j <= 300
    ensures ActRun(c, j) == c.(reportCount := c.reportCount + j)
    decreases j
  {
    if j > 0 {
      assert Act(c).ctl == c.(reportCount := c.reportCount + 1);
      EatingPrefix(c.(reportCount := c.reportCount + 1), j - 1);
    }
  }

  /**
   * EATING takes `301 - report_count` actions, stays in EATING until then,
   * and then enters CONFIRM_BLADE with the count and the cursor reset.
   */
  lemma EatingLoop(c: Control)
    requires Valid(c) && c.phase == Eating && c.reportCount <= 300
    ensures ActRun(c, 301 - c.reportCount) == c.(phase := ConfirmBlade, reportCount := 0, mapPos := 0)
    ensures forall j :: 0 <= j < 301 - c.reportCount ==> ActRun(c, j).phase == Eating
  {
    EatingPrefix(c, 300 - c.reportCount);
    ActRunSplit(c, 300 - c.reportCount, 1);
    forall j | 0 <= j < 301 - c.reportCount
      ensures ActRun(c, j).phase == Eating
    {
      EatingPrefix(c, j);
    }
  }

  /**
   * Every EATING action takes 66 ticks, the press and its five echoes and
   * then ten wait units of six neutral reports, so the `301 - report_count`
   * presses of a whole loop take `66 * (301 - report_count)` ticks.
   */
  lemma {:induction false} EatingTicks(c: Control, j: nat)
    requires Valid(c) && c.phase == Eating && c.reportCount + j <= 301
    ensures Ticks(c, j) == 66 * j
    decreases j
  {
    if j > 0 {
      var c1 := Act(c).ctl;
      TicksFirst(c, j);
      assert CycleLen(c) == 66;
      if j > 1 {
        assert c1 == c.(reportCount := c.reportCount + 1);
        EatingTicks(c1, j - 1);
      }
    }
  }

  /** Every EATING action presses A. */
  lemma EatingPresses(c: Control)
    requires Valid(c) && c.phase == Eating && c.reportCount <= 300
    ensures ActReports(c, 301 - c.reportCount) == Repeat(Press({A}, Center), 301 - c.reportCount)
  {
    var n := 301 - c.reportCount;
    forall i | 0 <= i < n
      ensures ActReports(c, n)[i] == Press({A}, Center)
    {
      ActReportAt(c, n, i);
      EatingPrefix(c, i);
    }
  }

  // ---------------------------------------------------------------------------
  // Whole rounds

  /** Actions from PREPARE through BUYING and CHANGE_BLADE. */
  const ShopLen: nat := |PrepareMap| + |BuyMap| + |ChangeMap|

  /** The three table phases before the blade loop run in order and hand over to CHANGE_POS. */
  lemma Shopping(c: Control)
    requires Valid(c) && c.phase == Prepare && c.mapPos == 0
    ensures ActRun(c, ShopLen) == c.(phase := ChangePos)
  {
    TablePhase(c);
    TablePhase(c.(phase := Buying));
    TablePhase(c.(phase := ChangeBlade));
    ActRunSplit(c, |PrepareMap|, |BuyMap|);
    ActRunSplit(c, |PrepareMap| + |BuyMap|, |ChangeMap|);
  }

  /** Actions from EAT_PRE through EATING and CONFIRM_BLADE, given `report_count` on entry. */
  function EatLen(k: nat): nat
    requires k <= 300
  {
    |EatPreMap| + (301 - k) + |ConfirmMap|
  }

  /** From EAT_PRE the script eats, confirms, and ends in DONE exactly when `bladePos >= bladeNum`, else in PREPARE. */
  lemma EatAndConfirm(c: Control)
    requires Valid(c) && c.phase == EatPre && c.mapPos == 0 && c.reportCount <= 300
    ensures ActRun(c, EatLen(c.reportCount))
      == c.(phase := if c.bladePos >= c.bladeNum then Done else Prepare, reportCount := 0, mapPos := 0)
  {
    var k := c.reportCount;
    TablePhase(c);
    EatingLoop(c.(phase := Eating));
    TablePhase(c.(phase := ConfirmBlade, reportCount := 0));
    ActRunSplit(c, |EatPreMap|, 301 - k);
    ActRunSplit(c, |EatPreMap| + (301 - k), |ConfirmMap|);
  }

  /** Actions in one round from PREPARE, given the blade count and `report_count` at its start. */
  function RoundLen(b: nat, k: nat): nat
    requires k <= 300
  {
    ShopLen + (ThreeBladesLen(b) + EatLen(k))
  }

  /** A state at the start of a round: PREPARE, first row, a multiple of three blades done. */
  predicate RoundStart(c: Control) {
    c.phase == Prepare && c.mapPos == 0 && c.bladePos % 3 == 0 && c.reportCount <= 300
  }

  /** A state at the start of a round's blade loop: CHANGE_POS on a multiple of three blades. */
  predicate BladeLoopStart(c: Control) {
    Valid(c) && c.phase == ChangePos && c.bladePos % 3 == 0 && c.reportCount <= 300
  }

  /**
   * Where a round from blade `bladePos` ends: three blades further on, with
   * the count, cursor and grid position cleared, in DONE exactly when the new
   * blade position reaches the target and back in PREPARE otherwise.
   */
  function RoundEnd(c: Control): Control {
    Control(if c.bladePos + 3 >= c.bladeNum then Done else Prepare, 0, c.bladeNum, c.bladePos + 3, 0, 0, 0)
  }

  /** From CHANGE_POS on a multiple of three, the script changes three blades, eats and confirms. */
  lemma ChangeAndEat(c: Control)
    requires BladeLoopStart(c)
    ensures ActRun(c, ThreeBladesLen(c.bladePos) + EatLen(c.reportCount)) == RoundEnd(c)
  {
    var e := c.(bladePos := c.bladePos + 3, line := 0, row := 0, phase := EatPre);
    var a, b := ThreeBladesLen(c.bladePos), EatLen(c.reportCount);
    ThreeBlades(c);
    EatAndConfirm(e);
    assert ActRun(e, b) == RoundEnd(c);
    ActRunChain(c, a, e, b, RoundEnd(c), a + b);
  }

  /** One round from PREPARE changes three blades, eats and confirms, ending where `RoundEnd` says. */
  lemma Round(c: Control)
    requires RoundStart(c)
    ensures ActRun(c, RoundLen(c.bladePos, c.reportCount)) == RoundEnd(c)
  {
    var cp := c.(phase := ChangePos);
    var m := ThreeBladesLen(c.bladePos) + EatLen(c.reportCount);
    Shopping(c);
    ChangeAndEat(cp);
    assert ActRun(cp, m) == RoundEnd(c);
    ActRunChain(c, ShopLen, cp, m, RoundEnd(c), RoundLen(c.bladePos, c.reportCount));
  }

  /** Rounds still to run from a round start with `b` blades done and target `n`. */
  function RoundsLeft(b: nat, n: nat): nat
    decreases n - b
  {
    if b + 3 >= n then 1 else 1 + RoundsLeft(b + 3, n)
  }

  /** The loop runs max(1, ceil((n - b) / 3)) rounds: at least once, then until the blade count reaches the target. */
  lemma {:induction false} RoundsLeftClosedForm(b: nat, n: nat)
    ensures RoundsLeft(b, n) == if b + 3 >= n then 1 else (n - b + 2) / 3
    decreases n - b
  {
    if b + 3 < n {
      RoundsLeftClosedForm(b + 3, n);
    }
  }

  /** Actions from a round start until DONE. */
  function ActionsToDone(b: nat, k: nat, n: nat): nat
    requires k <= 300
    decreases n - b
  {
    if b + 3 >= n then RoundLen(b, k) else RoundLen(b, k) + ActionsToDone(b + 3, 0, n)
  }

  /**
   * From any round start the script reaches DONE, after exactly
   * `RoundsLeft(bladePos, bladeNum)` rounds, with `bladePos` the first
   * multiple of three at or above the target (and above the start).
   */
  lemma {:induction false} RoundsReachDone(c: Control)
    requires RoundStart(c)
    ensures ActRun(c, ActionsToDone(c.bladePos, c.reportCount, c.bladeNum))
      == Control(Done, 0, c.bladeNum, c.bladePos + 3 * RoundsLeft(c.bladePos, c.bladeNum), 0, 0, 0)
    decreases c.bladeNum - c.bladePos
  {
    var b, k, n := c.bladePos, c.reportCount, c.bladeNum;
    Round(c);
    if b + 3 < n {
      var c1 := RoundEnd(c);
      RoundsReachDone(c1);
      ActRunChain(c, RoundLen(b, k), c1, ActionsToDone(b + 3, 0, n),
        Control(Done, 0, n, b + 3 * RoundsLeft(b, n), 0, 0, 0), ActionsToDone(b, k, n));
    }
  }

  /** From any round start some number of actions reaches DONE, `RoundsLeft` rounds further on. */
  lemma RoundsReachDoneSometime(c: Control)
    requires RoundStart(c)
    ensures exists n: nat ::
      ActRun(c, n).phase == Done && ActRun(c, n).bladePos == c.bladePos + 3 * RoundsLeft(c.bladePos, c.bladeNum)
  {
    RoundsReachDone(c);
    var n := ActionsToDone(c.bladePos, c.reportCount, c.bladeNum);
    assert ActRun(c, n).phase == Done;
  }

  /** From the first round start of the shipped script, DONE is reached with blade 63 selected. */
  lemma FirstRoundReachesDone(c: Control)
    requires RoundStart(c) && c.bladePos == 0 && c.bladeNum == BLADE_NUM
    ensures exists n: nat :: ActRun(c, n).phase == Done && ActRun(c, n).bladePos == 63
  {
    RoundsReachDoneSometime(c);
    ShippedRounds();
  }

  /**
   * The script as shipped: after the sync burst it runs its rounds and stops
   * in DONE with blade 63 selected, the first multiple of three at or above
   * 62, after a finite number of actions and so of ticks.
   */
  lemma ScriptReachesDone()
    ensures exists n: nat :: ActRun(InitControl, n).phase == Done && ActRun(InitControl, n).bladePos == 63
    ensures exists t: nat :: Run(Init, t).ctl.phase == Done
  {
    SyncExit();
    var c := ActRun(InitControl, 102);
    FirstRoundReachesDone(c);
    var m: nat :| ActRun(c, m).phase == Done && ActRun(c, m).bladePos == 63;
    ActRunSplit(InitControl, 102, m);
    RunFollowsActions(Init, 102 + m);
    assert Run(Init, Ticks(InitControl, 102 + m)).ctl.phase == Done;
  }

  /** The shipped target of 62 blades takes 21 rounds. */
  lemma ShippedRounds()
    ensures RoundsLeft(0, BLADE_NUM) == 21
  {
    RoundsLeftClosedForm(0, BLADE_NUM);
  }

  // ---------------------------------------------------------------------------
  // Done

  /** DONE is absorbing: no number of ticks changes the phase variables again. */
  lemma {:induction false} DoneAbsorbing(s: State, n: nat)
    requires Valid(s.ctl) && s.ctl.phase == Done
    ensures Run(s, n).ctl == s.ctl
    decreases n
  {
    if n > 0 {
      DoneAbsorbing(Next(s).1, n - 1);
    }
  }

  /** In DONE with no wait pending and only neutral echoes left, every tick sends the neutral report. */
  predicate DoneQuiet(s: State) {
    s.ctl.phase == Done && s.waitJump == 0 && (s.echoes == 0 || s.lastReport == Neutral)
  }

  /** Once DONE is quiet it sends nothing but neutral reports, forever. */
  lemma {:induction false} DoneStaysNeutral(s: State, n: nat)
    requires Valid(s.ctl) && DoneQuiet(s)
    ensures DoneQuiet(Run(s, n))
    ensures Reports(s, n) == Repeat(Neutral, n)
    decreases n
  {
    if n > 0 {
      DoneStaysNeutral(Next(s).1, n - 1);
    }
  }

  /** Any DONE state becomes quiet once its pending echoes and `waitJump` have drained, and one more tick has passed. */
  lemma DoneDrains(s: State)
    requires Valid(s.ctl) && s.ctl.phase == Done
    ensures DoneQuiet(Run(s, s.echoes + (1 + ECHOES) * s.waitJump + 1))
  {
    var w := s.waitJump;
    EchoReplay(s, s.echoes);
    var s1 := Run(s, s.echoes);
    assert s1 == s.(echoes := 0);
    WaitDrain(s1);
    var s2 := Run(s1, (1 + ECHOES) * w);
    assert s2.echoes == 0 && s2.waitJump == 0 && s2.ctl == s.ctl;
    RunAdd(s, s.echoes, (1 + ECHOES) * w);
    RunAdd(s, s.echoes + (1 + ECHOES) * w, 1);
  }
}

/**
 * The phase graph of missionAll.c, one action at a time, and what it means
 * tick by tick behind the gate: the re-sync burst, the three table walks, the
 * mission wait, and the endless 70-action mission loop.
 */
module MissionAllScript {
  import opened Hid
  import opened Action
  import opened Machine
  import opened Gate
  import opened Resync
  import opened MissionAll

  /** The cursor invariant holds after any number of actions from a state that satisfies it. */
  lemma {:induction false} ActionsValid(c: Control, n: nat)
    requires Valid(c)
    ensures Valid(Actions(Mission, c, n))
    decreases n
  {
    if n > 0 {
      var c1 := Act(c).1;
      assert Actions(Mission, c, n) == Actions(Mission, c1, n - 1);
      ActionsValid(c1, n - 1);
    }
  }

  // ---------------------------------------------------------------------------
  // Controller re-sync

  /** Up to count 101 each sync action only bumps `report_count` and zeroes `wait_time`. */
  lemma {:induction false} SyncRun(c: Control, j: nat)
    requires Valid(c) && c.phase == SyncController && c.reportCount + j <= 101
    ensures Actions(Mission, c, j) == c.(reportCount := c.reportCount + j, waitTime := if j == 0 then c.waitTime else 0)
    decreases j
  {
    if j > 0 {
      var c1 := c.(reportCount := c.reportCount + 1, waitTime := 0);
      assert ActStep(c).1 == c1;
      SyncRun(c1, j - 1);
    }
  }

  /** Up to count 101 the sync actions send the scheduled report for their count. */
  lemma SyncReports(c: Control, j: nat)
    requires Valid(c) && c.phase == SyncController && c.reportCount + j <= 101
    ensures forall i :: 0 <= i < j ==> ActReports(Mission, c, j)[i] == SyncReport(c.reportCount + i)
  {
    forall i | 0 <= i < j
      ensures ActReports(Mission, c, j)[i] == SyncReport(c.reportCount + i)
    {
      ActReportAt(Mission, c, j, i);
      SyncRun(c, i);
      SyncPressSchedule(c.reportCount + i);
    }
  }

  /** Every sync action, the one leaving for PREPARE included, leaves `wait_time` at 0: after the power-up wait the gate never waits again until PREPARE's first row. */
  lemma SyncWaitsNothing(c: Control)
    requires c.phase == SyncController
    ensures ActStep(c).1.waitTime == 0
    ensures ActStep(c).1.phase == if c.reportCount > 100 then Prepare else SyncController
  {
  }

  /**
   * From power-up the first 101 sync actions send L+R exactly on actions 25
   * and 50, A exactly on 75 and 100, and neutral on all the others.
   */
  lemma SyncSchedule()
    ensures var r := ActReports(Mission, InitControl, 101);
      forall i :: 0 <= i < 101 ==>
        && (r[i] == Press({L, R}, Center) <==> i == 25 || i == 50)
        && (r[i] == Press({A}, Center) <==> i == 75 || i == 100)
        && (r[i] == Neutral <==> i != 25 && i != 50 && i != 75 && i != 100)
  {
    SyncReports(InitControl, 101);
    forall i | 0 <= i < 101 {
      SyncReportCases(i);
    }
  }

  /** The 102nd action sends neutral and enters PREPARE at the first row with `report_count` 1 and `wait_time` 0. */
  lemma SyncExit()
    ensures ActReports(Mission, InitControl, 102)[101] == Neutral
    ensures Actions(Mission, InitControl, 102) == Control(Prepare, 1, 0, 0, 30)
  {
    var c := InitControl.(reportCount := 101, waitTime := 0);
    SyncRun(InitControl, 101);
    assert ActStep(c) == (Neutral, Control(Prepare, 1, 0, 0, 30));
    assert Actions(Mission, c, 1) == ActStep(c).1;
    FinalAdd(ActStep, InitControl, 101, 1);
    TraceAt(ActStep, InitControl, 102, 101);
  }

  /** Up to count 101 every sync action takes two ticks, the action and its hold, and never a wait. */
  lemma {:induction false} SyncTicks(c: Control, j: nat)
    requires Valid(c) && c.phase == SyncController && c.reportCount + j <= 101
    ensures Ticks(Mission, c, j) == 2 * j
    decreases j
  {
    if j > 0 {
      var c1 := c.(reportCount := c.reportCount + 1, waitTime := 0);
      assert ActStep(c).1 == c1;
      TicksFirst(Mission, c, j);
      SyncTicks(c1, j - 1);
    }
  }

  /**
   * Tick by tick, after the two power-up ticks, sync action `i` (up to 100)
   * sends its scheduled report on tick `2 + 2 * i` and the neutral hold on
   * the tick after.
   */
  lemma SyncTickSchedule(i: nat)
    requires i <= 100
    ensures Reports(Mission, Run(Mission, Init, 2 + 2 * i), 2) == [SyncReport(i), Neutral]
  {
    PowerUp();
    var s0 := Run(Mission, Init, 2);
    var c := InitControl.(reportCount := i, waitTime := if i == 0 then InitControl.waitTime else 0);
    SyncRun(InitControl, i);
    if i > 0 {
      SyncTicks(InitControl, i);
      RunFollowsActions(Mission, s0, i);
      RunAdd(Mission, Init, 2, 2 * i);
    }
    var s := Run(Mission, Init, 2 + 2 * i);
    assert Ready(Mission, s) && s.ctl == c;
    SyncPressSchedule(i);
    assert ActStep(c) == (SyncReport(i), c.(reportCount := i + 1, waitTime := 0));
    assert CycleLen(Mission, c) == 2;
    Cycle(Mission, s);
  }

  // ---------------------------------------------------------------------------
  // Table phases

  /** Where a table phase ends once its last row is played: the next phase, the first row, the last row's wait time. */
  function TableEnd(c: Control): Control
    requires IsTablePhase(c.phase)
  {
    var t := Table(c.phase);
    var c1 := c.(waitTime := t[|t| - 1].waitTime as nat, mapPos := 0);
    if c.phase == Prepare then c1.(phase := ChoosePeople)
    else if c.phase == ChoosePeople then c1.(phase := StartMission)
    else c1.(phase := Waiting, missionTime := 7)
  }

  /**
   * A table phase walks its table in order, one row per action: the cursor
   * moves up by one and `wait_time` takes the row's value each time, and
   * after the last row the phase moves on from the first row.
   */
  lemma {:induction false} TableWalk(c: Control, j: nat)
    requires Valid(c) && IsTablePhase(c.phase) && 0 < j && c.mapPos + j <= |Table(c.phase)|
    ensures c.mapPos + j < |Table(c.phase)| ==>
      Actions(Mission, c, j) == c.(mapPos := c.mapPos + j, waitTime := Table(c.phase)[c.mapPos + j - 1].waitTime as nat)
    ensures c.mapPos + j == |Table(c.phase)| ==> Actions(Mission, c, j) == TableEnd(c)
    decreases j
  {
    var c1 := ActStep(c).1;
    if j > 1 {
      assert c1 == c.(mapPos := c.mapPos + 1, waitTime := Table(c.phase)[c.mapPos].waitTime as nat);
      TableWalk(c1, j - 1);
    }
  }

  /** Short of the last row, `i` table actions leave the phase alone and move the cursor on by `i`. */
  lemma TableCursor(c: Control, i: nat)
    requires Valid(c) && IsTablePhase(c.phase) && c.mapPos + i < |Table(c.phase)|
    ensures Actions(Mission, c, i).phase == c.phase && Actions(Mission, c, i).mapPos == c.mapPos + i
  {
    if i > 0 {
      TableWalk(c, i);
    }
  }

  /** A table action plays the row under the cursor. */
  lemma TablePlays(c: Control)
    requires IsTablePhase(c.phase) && c.mapPos < |Table(c.phase)|
    ensures Mission.act(c).0 == Play(Table(c.phase)[c.mapPos])
  {
  }

  /** Action `i` of a table walk plays the row `i` places after the cursor. */
  lemma TableReportAt(c: Control, j: nat, i: nat)
    requires Valid(c) && IsTablePhase(c.phase) && c.mapPos + j <= |Table(c.phase)| && i < j
    ensures ActReports(Mission, c, j)[i] == Play(Table(c.phase)[c.mapPos + i])
  {
    var ci := Actions(Mission, c, i);
    TableCursor(c, i);
    ActReportAt(Mission, c, j, i);
    TablePlays(ci);
  }

  /** Each action of a table phase plays the row under the cursor. */
  lemma TableReports(c: Control, j: nat)
    requires Valid(c) && IsTablePhase(c.phase) && c.mapPos + j <= |Table(c.phase)|
    ensures forall i :: 0 <= i < j ==> ActReports(Mission, c, j)[i] == Play(Table(c.phase)[c.mapPos + i])
  {
    forall i | 0 <= i < j
      ensures ActReports(Mission, c, j)[i] == Play(Table(c.phase)[c.mapPos + i])
    {
      TableReportAt(c, j, i);
    }
  }

  /** A whole table phase from its first row: it plays the table and ends where `TableEnd` says. */
  lemma TablePhase(c: Control)
    requires Valid(c) && IsTablePhase(c.phase) && c.mapPos == 0
    ensures Actions(Mission, c, |Table(c.phase)|) == TableEnd(c)
    ensures ActReports(Mission, c, |Table(c.phase)|) == Played(Table(c.phase))
  {
    TableWalk(c, |Table(c.phase)|);
    TableReports(c, |Table(c.phase)|);
  }

  // ---------------------------------------------------------------------------
  // The mission loop

  /** Actions in one mission round: the three tables and the WAITING action. */
  const RoundLen: nat := |PrepareMap| + |ChooseMap| + |StartMissionMap| + 1

  /** The reports of one mission round: the three tables in order, then WAITING's neutral report. */
  function RoundReports(): seq<Report> {
    Played(PrepareMap) + Played(ChooseMap) + Played(StartMissionMap) + [Neutral]
  }

  /** The prepare and party-choosing tables, chained. */
  lemma PrepareAndChoose(c: Control)
    requires c.phase == Prepare && c.mapPos == 0
    ensures Actions(Mission, c, |PrepareMap| + |ChooseMap|) == c.(phase := StartMission, waitTime := 500)
    ensures ActReports(Mission, c, |PrepareMap| + |ChooseMap|) == Played(PrepareMap) + Played(ChooseMap)
  {
    var c1 := c.(phase := ChoosePeople, waitTime := 1000);
    TablePhase(c);
    TablePhase(c1);
    ActionsAdd(Mission, c, |PrepareMap|, |ChooseMap|);
  }

  /**
   * One round from PREPARE at the first row takes 70 actions, plays the three
   * tables and the neutral WAITING report, and comes back to PREPARE at the
   * first row with the mission wait spent and `wait_time` at 100.
   */
  lemma MissionRound(c: Control)
    requires c.phase == Prepare && c.mapPos == 0
    ensures RoundLen == 70
    ensures Actions(Mission, c, RoundLen) == c.(missionTime := 0, waitTime := 100)
    ensures ActReports(Mission, c, RoundLen) == RoundReports()
  {
    var a := |PrepareMap| + |ChooseMap|;
    var c2 := c.(phase := StartMission, waitTime := 500);
    var c3 := c.(phase := Waiting, missionTime := 7, waitTime := 100);
    PrepareAndChoose(c);
    TablePhase(c2);
    ActionsAdd(Mission, c, a, 1);
    assert ActReports(Mission, c3, 1) == [Neutral];
    ActionsAdd(Mission, c, a + 1, 1);
  }

  /** The mission loop never ends: from a round's settled start, every 70 actions return to it. */
  lemma {:induction false} MissionForever(c: Control, k: nat)
    requires c.phase == Prepare && c.mapPos == 0 && c.missionTime == 0 && c.waitTime == 100
    ensures Actions(Mission, c, RoundLen * k) == c
    decreases k
  {
    if k > 0 {
      MissionRound(c);
      MissionForever(c, k - 1);
      ActionsAdd(Mission, c, RoundLen, RoundLen * (k - 1));
    }
  }

  // ---------------------------------------------------------------------------
  // Ticks

  /** At power-up the gate holds once and waits once (`wait_time` starts at 50), then the first sync action runs. */
  lemma PowerUp()
    ensures Ready(Mission, Run(Mission, Init, 2)) && Run(Mission, Init, 2).ctl == InitControl
    ensures Reports(Mission, Init, 2) == [Neutral, Neutral]
  {
    StartUp(Mission, InitControl);
  }

  /** The round's settled start, as the gate holds it between rounds. */
  const LoopStart: Gated<Control> := Gated(Control(Prepare, 1, 0, 100, 0), false, false, DEFAULT_HOLD_TIME)

  /** Actions from power-up to the loop's settled start: the re-sync and one mission round. */
  const ActionsToLoop: nat := 102 + RoundLen

  /** The phase logic alone reaches the loop's settled start. */
  lemma ActionsReachLoop()
    ensures Actions(Mission, InitControl, ActionsToLoop) == LoopStart.ctl
  {
    SyncExit();
    MissionRound(Control(Prepare, 1, 0, 0, 30));
    ActionsAdd(Mission, InitControl, 102, RoundLen);
  }

  /** From power-up the engine, gate included, reaches the loop's settled start. */
  lemma ReachesMissionLoop()
    ensures Run(Mission, Init, 2 + Ticks(Mission, InitControl, ActionsToLoop)) == LoopStart
  {
    PowerUp();
    ActionsReachLoop();
    RunFollowsActions(Mission, Run(Mission, Init, 2), ActionsToLoop);
    RunAdd(Mission, Init, 2, Ticks(Mission, InitControl, ActionsToLoop));
  }

  /**
   * From the loop's settled start the ticks of one round bring the engine
   * back exactly: the script cycles forever with no terminal state.
   */
  lemma MissionLoopCycles()
    ensures Ticks(Mission, LoopStart.ctl, RoundLen) > 0
    ensures Run(Mission, LoopStart, Ticks(Mission, LoopStart.ctl, RoundLen)) == LoopStart
  {
    MissionRound(LoopStart.ctl);
    RunFollowsActions(Mission, LoopStart, RoundLen);
    assert Ticks(Mission, LoopStart.ctl, RoundLen) >= CycleLen(Mission, LoopStart.ctl);
  }
}

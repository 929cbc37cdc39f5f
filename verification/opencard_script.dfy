/**
 * The phase graph of openCard.c, one action at a time, and what it means
 * tick by tick behind the gate: the re-sync burst, one pass over the prepare
 * table, and the card table played round and round without end.
 */
module CardDrawScript {
  import opened Hid
  import opened Action
  import opened Machine
  import opened Gate
  import opened Resync
  import opened CardDraw

  /** The cursor invariant holds after any number of actions from a state that satisfies it. */
  lemma {:induction false} ActionsValid(c: Control, n: nat)
    requires Valid(c)
    ensures Valid(Actions(Draw, c, n))
    decreases n
  {
    if n > 0 {
      var c1 := Act(c).1;
      assert Actions(Draw, c, n) == Actions(Draw, c1, n - 1);
      ActionsValid(c1, n - 1);
    }
  }

  // ---------------------------------------------------------------------------
  // Controller re-sync

  /** Up to count 101 each sync action only bumps `report_count` and zeroes `wait_time`. */
  lemma {:induction false} SyncRun(c: Control, j: nat)
    requires Valid(c) && c.phase == SyncController && c.reportCount + j <= 101
    ensures Actions(Draw, c, j) == c.(reportCount := c.reportCount + j, waitTime := if j == 0 then c.waitTime else 0)
    decreases j
  {
    if j > 0 {
      var c1 := c.(reportCount := c.reportCount + 1, waitTime := 0);
      assert ActStep(c).1 == c1;
      SyncRun(c1, j - 1);
    }
  }

  /** Up to count 101 the sync actions send the scheduled report for their count. */
  lemma SyncReports(c: Control, j: nat)
    requires Valid(c) && c.phase == SyncController && c.reportCount + j <= 101
    ensures forall i :: 0 <= i < j ==> ActReports(Draw, c, j)[i] == SyncReport(c.reportCount + i)
  {
    forall i | 0 <= i < j
      ensures ActReports(Draw, c, j)[i] == SyncReport(c.reportCount + i)
    {
      ActReportAt(Draw, c, j, i);
      SyncRun(c, i);
      SyncPressSchedule(c.reportCount + i);
    }
  }

  /**
   * From power-up the first 101 sync actions send L+R exactly on actions 25
   * and 50, A exactly on 75 and 100, and neutral on all the others.
   */
  lemma SyncSchedule()
    ensures var r := ActReports(Draw, InitControl, 101);
      forall i :: 0 <= i < 101 ==>
        && (r[i] == Press({L, R}, Center) <==> i == 25 || i == 50)
        && (r[i] == Press({A}, Center) <==> i == 75 || i == 100)
        && (r[i] == Neutral <==> i != 25 && i != 50 && i != 75 && i != 100)
  {
    SyncReports(InitControl, 101);
    forall i | 0 <= i < 101 {
      SyncReportCases(i);
    }
  }

  /** The 102nd action sends neutral and enters PREPARE at the first row with `report_count` 1 and `wait_time` 0. */
  lemma SyncExit()
    ensures ActReports(Draw, InitControl, 102)[101] == Neutral
    ensures Actions(Draw, InitControl, 102) == Control(Prepare, 1, 0, 0)
  {
    var c := InitControl.(reportCount := 101, waitTime := 0);
    SyncRun(InitControl, 101);
    assert ActStep(c) == (Neutral, Control(Prepare, 1, 0, 0));
    assert Actions(Draw, c, 1) == ActStep(c).1;
    FinalAdd(ActStep, InitControl, 101, 1);
    TraceAt(ActStep, InitControl, 102, 101);
  }

  /** Up to count 101 every sync action takes two ticks, the action and its hold, and never a wait. */
  lemma {:induction false} SyncTicks(c: Control, j: nat)
    requires Valid(c) && c.phase == SyncController && c.reportCount + j <= 101
    ensures Ticks(Draw, c, j) == 2 * j
    decreases j
  {
    if j > 0 {
      var c1 := c.(reportCount := c.reportCount + 1, waitTime := 0);
      assert ActStep(c).1 == c1;
      TicksFirst(Draw, c, j);
      SyncTicks(c1, j - 1);
    }
  }

  /**
   * Tick by tick, after the two power-up ticks, sync action `i` (up to 100)
   * sends its scheduled report on tick `2 + 2 * i` and the neutral hold on
   * the tick after.
   */
  lemma SyncTickSchedule(i: nat)
    requires i <= 100
    ensures Reports(Draw, Run(Draw, Init, 2 + 2 * i), 2) == [SyncReport(i), Neutral]
  {
    StartUp(Draw, InitControl);
    var s0 := Run(Draw, Init, 2);
    var c := InitControl.(reportCount := i, waitTime := if i == 0 then InitControl.waitTime else 0);
    SyncRun(InitControl, i);
    if i > 0 {
      SyncTicks(InitControl, i);
      RunFollowsActions(Draw, s0, i);
      RunAdd(Draw, Init, 2, 2 * i);
    }
    var s := Run(Draw, Init, 2 + 2 * i);
    assert Ready(Draw, s) && s.ctl == c;
    SyncPressSchedule(i);
    assert ActStep(c) == (SyncReport(i), c.(reportCount := i + 1, waitTime := 0));
    assert CycleLen(Draw, c) == 2;
    Cycle(Draw, s);
  }

  // ---------------------------------------------------------------------------
  // Table phases

  /** Where a table phase ends once its last row is played: OPEN_CARD at the first row, with the last row's wait time. */
  function TableEnd(c: Control): Control
    requires IsTablePhase(c.phase)
  {
    var t := Table(c.phase);
    c.(waitTime := t[|t| - 1].waitTime as nat, mapPos := 0, phase := OpenCard)
  }

  /**
   * A table phase walks its table in order, one row per action: the cursor
   * moves up by one and `wait_time` takes the row's value each time, and
   * after the last row OPEN_CARD starts again from the first row.
   */
  lemma {:induction false} TableWalk(c: Control, j: nat)
    requires Valid(c) && IsTablePhase(c.phase) && 0 < j && c.mapPos + j <= |Table(c.phase)|
    ensures c.mapPos + j < |Table(c.phase)| ==>
      Actions(Draw, c, j) == c.(mapPos := c.mapPos + j, waitTime := Table(c.phase)[c.mapPos + j - 1].waitTime as nat)
    ensures c.mapPos + j == |Table(c.phase)| ==> Actions(Draw, c, j) == TableEnd(c)
    decreases j
  {
    var c1 := ActStep(c).1;
    if j > 1 {
      assert c1 == c.(mapPos := c.mapPos + 1, waitTime := Table(c.phase)[c.mapPos].waitTime as nat);
      TableWalk(c1, j - 1);
    }
  }

  /** Short of the last row, `i` table actions leave the phase alone and move the cursor on by `i`. */
  lemma TableCursor(c: Control, i: nat)
    requires Valid(c) && IsTablePhase(c.phase) && c.mapPos + i < |Table(c.phase)|
    ensures Actions(Draw, c, i).phase == c.phase && Actions(Draw, c, i).mapPos == c.mapPos + i
  {
    if i > 0 {
      TableWalk(c, i);
    }
  }

  /** A table action plays the row under the cursor. */
  lemma TablePlays(c: Control)
    requires IsTablePhase(c.phase) && c.mapPos < |Table(c.phase)|
    ensures Draw.act(c).0 == Play(Table(c.phase)[c.mapPos])
  {
  }

  /** Action `i` of a table walk plays the row `i` places after the cursor. */
  lemma TableReportAt(c: Control, j: nat, i: nat)
    requires Valid(c) && IsTablePhase(c.phase) && c.mapPos + j <= |Table(c.phase)| && i < j
    ensures ActReports(Draw, c, j)[i] == Play(Table(c.phase)[c.mapPos + i])
  {
    var ci := Actions(Draw, c, i);
    TableCursor(c, i);
    ActReportAt(Draw, c, j, i);
    TablePlays(ci);
  }

  /** Each action of a table phase plays the row under the cursor. */
  lemma TableReports(c: Control, j: nat)
    requires Valid(c) && IsTablePhase(c.phase) && c.mapPos + j <= |Table(c.phase)|
    ensures forall i :: 0 <= i < j ==> ActReports(Draw, c, j)[i] == Play(Table(c.phase)[c.mapPos + i])
  {
    forall i | 0 <= i < j
      ensures ActReports(Draw, c, j)[i] == Play(Table(c.phase)[c.mapPos + i])
    {
      TableReportAt(c, j, i);
    }
  }

  /** A whole table phase from its first row: it plays the table and ends where `TableEnd` says. */
  lemma TablePhase(c: Control)
    requires Valid(c) && IsTablePhase(c.phase) && c.mapPos == 0
    ensures Actions(Draw, c, |Table(c.phase)|) == TableEnd(c)
    ensures ActReports(Draw, c, |Table(c.phase)|) == Played(Table(c.phase))
  {
    TableWalk(c, |Table(c.phase)|);
    TableReports(c, |Table(c.phase)|);
  }

  /** The prepare table is played once and hands over to OPEN_CARD at the first row with `wait_time` 50. */
  lemma PrepareOnce(c: Control)
    requires c.phase == Prepare && c.mapPos == 0
    ensures Actions(Draw, c, |PrepareMap|) == c.(phase := OpenCard, waitTime := 50)
    ensures ActReports(Draw, c, |PrepareMap|) == Played(PrepareMap)
  {
    TablePhase(c);
  }

  /**
   * One card round from the first row: twelve actions play the card table
   * and come back to the first row of OPEN_CARD, with `wait_time` 3000.
   */
  lemma CardRound(c: Control)
    requires c.phase == OpenCard && c.mapPos == 0
    ensures |OpenCardMap| == 12
    ensures Actions(Draw, c, |OpenCardMap|) == c.(waitTime := 3000)
    ensures ActReports(Draw, c, |OpenCardMap|) == Played(OpenCardMap)
  {
    TablePhase(c);
  }

  /** OPEN_CARD never ends: from a round's settled start, every twelve actions return to it. */
  lemma {:induction false} CardsForever(c: Control, k: nat)
    requires c.phase == OpenCard && c.mapPos == 0 && c.waitTime == 3000
    ensures Actions(Draw, c, |OpenCardMap| * k) == c
    decreases k
  {
    if k > 0 {
      CardRound(c);
      CardsForever(c, k - 1);
      ActionsAdd(Draw, c, |OpenCardMap|, |OpenCardMap| * (k - 1));
    }
  }

  // ---------------------------------------------------------------------------
  // Ticks

  /** The card round's settled start, as the gate holds it between rounds. */
  const LoopStart: Gated<Control> := Gated(Control(OpenCard, 1, 0, 3000), false, false, DEFAULT_HOLD_TIME)

  /** Actions from power-up to the card loop's settled start: the re-sync, the prepare table, one card round. */
  const ActionsToLoop: nat := 102 + |PrepareMap| + |OpenCardMap|

  /** The phase logic alone reaches the card loop's settled start. */
  lemma ActionsReachLoop()
    ensures Actions(Draw, InitControl, ActionsToLoop) == LoopStart.ctl
  {
    SyncExit();
    PrepareOnce(Control(Prepare, 1, 0, 0));
    CardRound(Control(OpenCard, 1, 0, 50));
    ActionsAdd(Draw, InitControl, 102, |PrepareMap|);
    ActionsAdd(Draw, InitControl, 102 + |PrepareMap|, |OpenCardMap|);
  }

  /** From power-up the engine, gate included, reaches the card loop's settled start. */
  lemma ReachesCardLoop()
    ensures Run(Draw, Init, 2 + Ticks(Draw, InitControl, ActionsToLoop)) == LoopStart
  {
    StartUp(Draw, InitControl);
    ActionsReachLoop();
    RunFollowsActions(Draw, Run(Draw, Init, 2), ActionsToLoop);
    RunAdd(Draw, Init, 2, Ticks(Draw, InitControl, ActionsToLoop));
  }

  /**
   * From the card loop's settled start the ticks of one round bring the
   * engine back exactly: the script repeats the card table forever with no
   * terminal state.
   */
  lemma CardLoopCycles()
    ensures Ticks(Draw, LoopStart.ctl, |OpenCardMap|) > 0
    ensures Run(Draw, LoopStart, Ticks(Draw, LoopStart.ctl, |OpenCardMap|)) == LoopStart
  {
    CardRound(LoopStart.ctl);
    RunFollowsActions(Draw, LoopStart, |OpenCardMap|);
    assert Ticks(Draw, LoopStart.ctl, |OpenCardMap|) >= CycleLen(Draw, LoopStart.ctl);
  }
}

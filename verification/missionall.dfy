/**
 * The mission script (missionAll.c) behind the hold/wait gate: re-sync the
 * controller, then forever walk the prepare table, the party-choosing table
 * and the one-row mission-start table, and wait out the mission.
 *
 * The WAITING phase blocks for `mission_time` minutes in a `_delay_ms` loop;
 * the loop is modelled by its effect, `mission_time` reaching 0 in one step.
 */
module MissionAll {
  import opened Basics
  import opened Hid
  import opened Action
  import opened Machine
  import opened Gate
  import opened Resync

  /**
   * `State_t`: the five phases, numbered in declaration order.  An integer
   * range with named constants rather than a datatype, because comparisons
   * and case splits on it stay cheap for the verifier.
   */
  newtype Phase = x: int | 0 <= x < 5

  const SyncController: Phase := 0
  const Prepare: Phase := 1
  const ChoosePeople: Phase := 2
  const StartMission: Phase := 3
  const Waiting: Phase := 4

  const PrepareMap: seq<Step> := [
    Step(ButtonB, 1000),
    Step(ButtonB, 1000),
    Step(ButtonB, 1000),
    Step(ButtonB, 1500),
    Step(ButtonPlus, 1500),
    Step(PadRight, 50),
    Step(PadRight, 50),
    Step(PadRight, 50),
    Step(PadRight, 50),
    Step(ButtonA, 1000),
    Step(ButtonA, 1000),
    Step(ButtonB, 2000),
    Step(ButtonA, 1000),
    Step(ButtonB, 2000),
    Step(ButtonA, 1000),
    Step(ButtonB, 2000),
    Step(ButtonA, 1000),
    Step(ButtonB, 2000),
    Step(ButtonA, 1000),
    Step(ButtonB, 2000),
    Step(ButtonA, 1000),
    Step(ButtonB, 2000),
    Step(ButtonA, 1000),
    Step(ButtonB, 2000),
    Step(ButtonA, 1000),
    Step(ButtonB, 2000),
    Step(ButtonA, 1000),
    Step(ButtonB, 1000)
  ]

  const ChooseMap: seq<Step> := [
    Step(ButtonA, 500),
    Step(PadRight, 50),
    Step(PadRight, 50),
    Step(PadRight, 50),
    Step(PadBottom, 50),
    Step(ButtonA, 1000),
    Step(PadBottom, 50),
    Step(PadBottom, 50),
    Step(PadRight, 50),
    Step(PadRight, 50),
    Step(PadRight, 50),
    Step(ButtonA, 50),
    Step(PadBottom, 50),
    Step(PadBottom, 50),
    Step(PadRight, 50),
    Step(ButtonA, 50),
    Step(PadBottom, 50),
    Step(PadLeft, 50),
    Step(ButtonA, 50),
    Step(PadBottom, 50),
    Step(PadLeft, 50),
    Step(PadLeft, 50),
    Step(PadLeft, 50),
    Step(ButtonA, 50),
    Step(PadBottom, 50),
    Step(PadBottom, 50),
    Step(PadBottom, 50),
    Step(PadBottom, 50),
    Step(PadRight, 50),
    Step(PadRight, 50),
    Step(PadRight, 50),
    Step(ButtonA, 50),
    Step(PadBottom, 50),
    Step(ButtonA, 50),
    Step(ButtonX, 1000),
    Step(ButtonA, 500),
    Step(PadTop, 100),
    Step(ButtonA, 300),
    Step(ButtonA, 4000),
    Step(ButtonA, 500)
  ]

  const StartMissionMap: seq<Step> := [
    Step(ButtonPlus, 100)
  ]

  /** The phases that walk a table. */
  predicate IsTablePhase(p: Phase) {
    p == Prepare || p == ChoosePeople || p == StartMission
  }

  function Table(p: Phase): seq<Step>
    requires IsTablePhase(p)
  {
    if p == Prepare then PrepareMap
    else if p == ChoosePeople then ChooseMap
    else StartMissionMap
  }

  /** The script's globals other than the gate flags (`wait_time` is set by the actions). */
  datatype Control = Control(phase: Phase, reportCount: nat, mapPos: nat, waitTime: nat, missionTime: nat)

  /** The initial values of the globals. */
  const InitControl: Control := Control(SyncController, 0, 0, 50, 30)

  /** The table cursor indexes the active table. */
  predicate InBounds(c: Control) {
    IsTablePhase(c.phase) ==> c.mapPos < |Table(c.phase)|
  }

  /** The cursor invariant: inside the active table, and 0 in every phase that has no table. */
  predicate Valid(c: Control) {
    InBounds(c) && (!IsTablePhase(c.phase) ==> c.mapPos == 0)
  }

  /**
   * SYNC_CONTROLLER: the re-sync press for the current count, or, once the
   * count passes 100, a neutral report and PREPARE from the first row.  The
   * count is bumped after the reset, and `wait_time` ends at 0 either way:
   * the 500 set on the way out is overwritten.
   */
  function SyncStep(c: Control): (Report, Control)
    requires c.phase == SyncController
  {
    if c.reportCount > 100 then
      var c' := c.(reportCount := 0, waitTime := 500, mapPos := 0, phase := Prepare);
      (Neutral, c'.(reportCount := c'.reportCount + 1, waitTime := 0))
    else
      (SyncPress(c.reportCount), c.(reportCount := c.reportCount + 1, waitTime := 0))
  }

  /**
   * A table phase: play the row under the cursor, take its wait time, advance
   * the cursor; past the last row go to the next phase from the first row,
   * arming a seven-minute mission when leaving START_MISSION.
   */
  function TableStep(c: Control): (Report, Control)
    requires IsTablePhase(c.phase) && InBounds(c)
  {
    var row := Table(c.phase)[c.mapPos];
    var c1 := c.(waitTime := row.waitTime as nat, mapPos := c.mapPos + 1);
    var c2 :=
      if c1.mapPos < |Table(c.phase)| then c1
      else if c.phase == Prepare then c1.(phase := ChoosePeople, mapPos := 0)
      else if c.phase == ChoosePeople then c1.(phase := StartMission, mapPos := 0)
      else c1.(phase := Waiting, missionTime := 7, mapPos := 0);
    (Play(row), c2)
  }

  /** WAITING: sit out the mission (`mission_time` counted down to 0), then PREPARE from the first row. */
  function WaitingStep(c: Control): (Report, Control)
    requires c.phase == Waiting
  {
    (Neutral, c.(missionTime := 0, mapPos := 0, phase := Prepare))
  }

  /** The `switch (state)` of `GetNextReport`, on the cleared report. */
  function Act(c: Control): (o: (Report, Control))
    requires InBounds(c)
    ensures Valid(c) ==> Valid(o.1)
  {
    if c.phase == SyncController then SyncStep(c)
    else if IsTablePhase(c.phase) then TableStep(c)
    else WaitingStep(c)
  }

  /** The action as a total step: outside the cursor invariant, which no run reaches (`ActionsValid`), it stands still. */
  function ActStep(c: Control): (Report, Control) {
    if InBounds(c) then Act(c) else (Neutral, c)
  }

  function WaitTimeOf(c: Control): nat {
    c.waitTime
  }

  /** The script as the gate runs it. */
  const Mission: Script<Control> := Script(ActStep, WaitTimeOf)

  /** The whole engine at power-up. */
  const Init: Gated<Control> := Start(InitControl)
}

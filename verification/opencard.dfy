/**
 * The card-drawing script (openCard.c) behind the hold/wait gate: re-sync
 * the controller, walk the prepare table once, then play the card table
 * over and over, forever.
 */
module CardDraw {
  import opened Hid
  import opened Action
  import opened Gate
  import opened Resync

  /**
   * `State_t`: the three phases, numbered in declaration order.  An integer
   * range with named constants rather than a datatype, because comparisons
   * and case splits on it stay cheap for the verifier.
   */
  newtype Phase = x: int | 0 <= x < 3

  const SyncController: Phase := 0
  const Prepare: Phase := 1
  const OpenCard: Phase := 2

  const PrepareMap: seq<Step> := [
    Step(ButtonB, 50),
    Step(ButtonB, 50),
    Step(ButtonB, 50),
    Step(ButtonB, 50),
    Step(ButtonB, 50),
    Step(ButtonB, 1000),
    Step(ButtonPlus, 1500),
    Step(PadRight, 50),
    Step(PadRight, 50),
    Step(PadRight, 50),
    Step(ButtonA, 1000),
    Step(PadRight, 50),
    Step(ButtonA, 1000),
    Step(PadRight, 50)
  ]

  const OpenCardMap: seq<Step> := [
    Step(ButtonA, 500),
    Step(ButtonA, 500),
    Step(PadTop, 50),
    Step(PadTop, 50),
    Step(ButtonA, 500),
    Step(ButtonA, 2000),
    Step(PadTop, 50),
    Step(ButtonA, 10000),
    Step(ButtonPlus, 500),
    Step(ButtonA, 1000),
    Step(ButtonA, 500),
    Step(ButtonB, 3000)
  ]

  /** The phases that walk a table: every phase but the re-sync. */
  predicate IsTablePhase(p: Phase) {
    p == Prepare || p == OpenCard
  }

  function Table(p: Phase): seq<Step>
    requires IsTablePhase(p)
  {
    if p == Prepare then PrepareMap else OpenCardMap
  }

  /** The script's globals other than the gate flags (`wait_time` is set by the actions). */
  datatype Control = Control(phase: Phase, reportCount: nat, mapPos: nat, waitTime: nat)

  /** The initial values of the globals. */
  const InitControl: Control := Control(SyncController, 0, 0, 50)

  /** The table cursor indexes the active table. */
  predicate InBounds(c: Control) {
    IsTablePhase(c.phase) ==> c.mapPos < |Table(c.phase)|
  }

  /** The cursor invariant: inside the active table, and 0 during the re-sync. */
  predicate Valid(c: Control) {
    InBounds(c) && (!IsTablePhase(c.phase) ==> c.mapPos == 0)
  }

  /**
   * SYNC_CONTROLLER: the re-sync press for the current count, or, once the
   * count passes 100, a neutral report and PREPARE from the first row.  The
   * count is bumped after the reset, and `wait_time` ends at 0 either way:
   * the 500 set on the way out is overwritten.
   */
  function SyncStep(c: Control): (Report, Control)
    requires c.phase == SyncController
  {
    if c.reportCount > 100 then
      var c' := c.(reportCount := 0, waitTime := 500, mapPos := 0, phase := Prepare);
      (Neutral, c'.(reportCount := c'.reportCount + 1, waitTime := 0))
    else
      (SyncPress(c.reportCount), c.(reportCount := c.reportCount + 1, waitTime := 0))
  }

  /**
   * A table phase: play the row under the cursor, take its wait time, advance
   * the cursor; past the last row go back to the first row, moving on from
   * PREPARE to OPEN_CARD and staying in OPEN_CARD.
   */
  function TableStep(c: Control): (Report, Control)
    requires IsTablePhase(c.phase) && InBounds(c)
  {
    var row := Table(c.phase)[c.mapPos];
    var c1 := c.(waitTime := row.waitTime as nat, mapPos := c.mapPos + 1);
    var c2 :=
      if c1.mapPos < |Table(c.phase)| then c1
      else if c.phase == Prepare then c1.(phase := OpenCard, mapPos := 0)
      else c1.(mapPos := 0);
    (Play(row), c2)
  }

  /** The `switch (state)` of `GetNextReport`, on the cleared report. */
  function Act(c: Control): (o: (Report, Control))
    requires InBounds(c)
    ensures Valid(c) ==> Valid(o.1)
  {
    if c.phase == SyncController then SyncStep(c) else TableStep(c)
  }

  /** The action as a total step: outside the cursor invariant, which no run reaches (`ActionsValid`), it stands still. */
  function ActStep(c: Control): (Report, Control) {
    if InBounds(c) then Act(c) else (Neutral, c)
  }

  function WaitTimeOf(c: Control): nat {
    c.waitTime
  }

  /** The script as the gate runs it. */
  const Draw: Script<Control> := Script(ActStep, WaitTimeOf)

  /** The whole engine at power-up. */
  const Init: Gated<Control> := Start(InitControl)
}

/**
 * The blade-changing and eating script (eatMeat.c): an eleven-phase machine
 * driven by five constant tables, with the "echo-hold" timing policy.  Every
 * report produced by the phase logic, neutral waiting reports included, is
 * replayed verbatim on the next `ECHOES` ticks, and after an action the
 * machine emits `waitJump` neutral reports before acting again.
 *
 * The source keeps all of this in globals; here the phase logic's variables
 * form a `Control` record and the timing variables wrap it in a `State`.
 */
module EatMeat {
  import opened Basics
  import opened Hid
  import opened Machine

  /**
   * `State_t`: the eleven phases, numbered in declaration order.  An integer
   * range with named constants rather than a datatype, because comparisons
   * and case splits on it stay cheap for the verifier.
   */
  newtype Phase = x: int | 0 <= x < 11

  const SyncController: Phase := 0
  const Prepare: Phase := 1
  const Buying: Phase := 2
  const ChangeBlade: Phase := 3
  const ChangePos: Phase := 4
  const ChangePre: Phase := 5
  const Changing: Phase := 6
  const EatPre: Phase := 7
  const Eating: Phase := 8
  const ConfirmBlade: Phase := 9
  const Done: Phase := 10

  /** One row of a table: the button mask and hat to assert, then how many neutral ticks to wait. */
  datatype Row = Row(button: set<Button>, hat: Hat, duration: u16)

  /** How many times each produced report is replayed. */
  const ECHOES: nat := 5
  /** The blade count the script stops at. */
  const BLADE_NUM: nat := 62

  const PrepareMap: seq<Row> := [
    Row({B}, Center, 10),
    Row({B}, Center, 10),
    Row({B}, Center, 10),
    Row({B}, Center, 50)
  ]

  const BuyMap: seq<Row> := [
    Row({A}, Center, 20),
    Row({A}, Center, 20),
    Row({A}, Center, 20),
    Row({A}, Center, 20),
    Row({}, Left, 20),
    Row({A}, Center, 20),
    Row({B}, Center, 20),
    Row({B}, Center, 50)
  ]

  const ChangeMap: seq<Row> := [
    Row({Plus}, Center, 50),
    Row({A}, Center, 20),
    Row({A}, Center, 20),
    Row({}, Right, 20),
    Row({A}, Center, 20),
    Row({Minus}, Center, 50),
    Row({}, Bottom, 20),
    Row({A}, Center, 20)
  ]

  const EatPreMap: seq<Row> := [
    Row({B}, Center, 50),
    Row({}, Right, 20),
    Row({}, Right, 20),
    Row({}, Right, 20)
  ]

  const ConfirmMap: seq<Row> := [
    Row({B}, Center, 50),
    Row({B}, Center, 50),
    Row({Plus}, Center, 100),
    Row({Plus}, Center, 100),
    Row({A}, Center, 100),
    Row({}, Right, 100),
    Row({A}, Center, 100),
    Row({}, Right, 100),
    Row({A}, Center, 200),
    Row({A}, Center, 50),
    Row({ZR}, Center, 200),
    Row({A}, Center, 50),
    Row({ZR}, Center, 200),
    Row({A}, Center, 50),
    Row({Plus}, Center, 200)
  ]

  /** The phases that walk a table. */
  predicate IsTablePhase(p: Phase) {
    p == Prepare || p == Buying || p == ChangeBlade || p == EatPre || p == ConfirmBlade
  }

  function Table(p: Phase): seq<Row>
    requires IsTablePhase(p)
  {
    if p == Prepare then PrepareMap
    else if p == Buying then BuyMap
    else if p == ChangeBlade then ChangeMap
    else if p == EatPre then EatPreMap
    else ConfirmMap
  }

  /** The report a table row asserts. */
  function RowReport(row: Row): Report {
    Press(row.button, row.hat)
  }

  /** The phase logic's variables. */
  datatype Control = Control(
    phase: Phase,
    reportCount: nat,
    bladeNum: nat,
    bladePos: nat,
    line: nat,
    row: nat,
    mapPos: nat)

  /** The whole engine: phase logic plus the echo and wait counters. */
  datatype State = State(ctl: Control, echoes: nat, lastReport: Report, waitJump: nat)

  /** The initial values of the globals; the report buffer is never replayed before it is first written. */
  const InitControl: Control := Control(SyncController, 0, BLADE_NUM, 0, 0, 0, 0)
  const Init: State := State(InitControl, 0, Neutral, 0)

  /** The table cursor indexes the active table. */
  predicate InBounds(c: Control) {
    IsTablePhase(c.phase) ==> c.mapPos < |Table(c.phase)|
  }

  /** The cursor invariant: inside the active table, and 0 in every phase that has no table. */
  predicate Valid(c: Control) {
    InBounds(c) && (!IsTablePhase(c.phase) ==> c.mapPos == 0)
  }

  /** Phase variables satisfying the cursor invariant. */
  type ValidControl = c: Control | Valid(c) witness InitControl

  /** States whose phase variables satisfy the cursor invariant. */
  type ValidState = s: State | Valid(s.ctl) witness Init

  /** What one pass through the phase logic produces: a report, new phase variables, a new `waitJump`. */
  datatype Outcome = Outcome(report: Report, ctl: Control, waitJump: nat)

  /** Where a table phase goes once its table is exhausted. */
  function AfterTable(c: Control): Phase
    requires IsTablePhase(c.phase)
  {
    if c.phase == Prepare then Buying
    else if c.phase == Buying then ChangeBlade
    else if c.phase == ChangeBlade then ChangePos
    else if c.phase == EatPre then Eating
    else if c.bladePos >= c.bladeNum then Done else Prepare
  }

  /** Assert the row under the cursor, wait its duration, advance the cursor and wrap at the end. */
  function TableStep(c: Control): Outcome
    requires IsTablePhase(c.phase) && InBounds(c)
  {
    var row := Table(c.phase)[c.mapPos];
    var next := c.mapPos + 1;
    var c' := if next >= |Table(c.phase)| then c.(phase := AfterTable(c), mapPos := 0)
              else c.(mapPos := next);
    Outcome(RowReport(row), c', row.duration as nat)
  }

  /** SYNC_CONTROLLER: scheduled presses by `report_count`, then PREPARE once the count passes 100. */
  function SyncStep(c: Control): Outcome
    requires c.phase == SyncController
  {
    if c.reportCount > 100 then
      var c' := c.(reportCount := 0, phase := Prepare);
      Outcome(Neutral, c'.(reportCount := c'.reportCount + 1), 200)
    else
      var button: set<Button> :=
        if c.reportCount == 25 || c.reportCount == 50 then {L, R}
        else if c.reportCount == 75 || c.reportCount == 100 then {A}
        else {};
      Outcome(Press(button, Center), c.(reportCount := c.reportCount + 1), 0)
  }

  /** CHANGE_POS: move on to the next blade and work out its grid line and column. */
  function ChangePosStep(c: Control): Outcome
    requires c.phase == ChangePos
  {
    var b := c.bladePos + 1;
    var hat := if b % 3 == 1 then Center else Bottom;
    Outcome(Press({}, hat), c.(bladePos := b, line := (b - 1) / 5, row := (b - 1) % 5, phase := ChangePre), 20)
  }

  /** CHANGING: step down, then right, to the blade's cell, then press A and leave. */
  function ChangingStep(c: Control): Outcome
    requires c.phase == Changing
  {
    if c.line > 0 then Outcome(Press({}, Bottom), c.(line := c.line - 1), 20)
    else if c.row > 0 then Outcome(Press({}, Right), c.(row := c.row - 1), 20)
    else if c.bladePos % 3 == 0 then Outcome(Press({A}, Center), c.(phase := EatPre, mapPos := 0), 20)
    else Outcome(Press({A}, Center), c.(phase := ChangePos), 20)
  }

  /** EATING: press A, and after the count passes 300 move on to CONFIRM_BLADE. */
  function EatingStep(c: Control): Outcome
    requires c.phase == Eating
  {
    var count := c.reportCount + 1;
    if count > 300 then Outcome(Press({A}, Center), c.(reportCount := 0, mapPos := 0, phase := ConfirmBlade), 10)
    else Outcome(Press({A}, Center), c.(reportCount := count), 10)
  }

  /** The `switch (state)` of `GetNextReport`, run when neither an echo nor a wait is pending. */
  function Act(c: Control): (o: Outcome)
    requires InBounds(c)
    ensures Valid(c) ==> Valid(o.ctl)
  {
    if c.phase == SyncController then SyncStep(c)
    else if IsTablePhase(c.phase) then TableStep(c)
    else if c.phase == ChangePos then ChangePosStep(c)
    else if c.phase == ChangePre then Outcome(Press({A}, Center), c.(phase := Changing), 20)
    else if c.phase == Changing then ChangingStep(c)
    else if c.phase == Eating then EatingStep(c)
    else Outcome(Neutral, c, 0)
  }

  /** `GetNextReport`: one polling tick, giving the report sent and the next state. */
  function Next(s: State): (r: (Report, State))
    requires s.echoes == 0 && s.waitJump == 0 ==> InBounds(s.ctl)
    ensures Valid(s.ctl) ==> Valid(r.1.ctl)
  {
    if s.echoes > 0 then
      (s.lastReport, s.(echoes := s.echoes - 1))
    else if s.waitJump > 0 then
      (Neutral, State(s.ctl, ECHOES, Neutral, s.waitJump - 1))
    else
      var o := Act(s.ctl);
      (o.report, State(o.ctl, ECHOES, o.report, o.waitJump))
  }

  /** One polling tick on states that keep the cursor invariant. */
  function Tick(s: ValidState): (Report, ValidState) {
    Next(s)
  }

  /** The state after `n` ticks. */
  function Run(s: ValidState, n: nat): ValidState {
    Final(Tick, s, n)
  }

  /** The reports sent during `n` ticks. */
  function Reports(s: ValidState, n: nat): seq<Report> {
    Trace(Tick, s, n)
  }
}

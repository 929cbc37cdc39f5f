# Switch-Fightstick report sequencing, in Dafny

This project models the report-sequencing engine of the Switch-Fightstick
macro player, and proves properties of the model. The player is a microcontroller
that pretends to be a game controller. On every USB polling tick the host calls
`GetNextReport`, which fills in one input report: a button mask, a hat
direction, two analogue sticks and a vendor byte. Each script decides that report
by walking a phase machine through constant tables of steps.

The model has four parts.

- **The action encoder.** `ACTION_t` and its numeric codes (action.h) and
  `setButton` (action.c) are modelled in action.dfy. `Action.Action` has one value
  per enumerator, and `Action.Code` / `Action.Decode` give its byte value.
  `Action.SetButton` writes one action into a report (`Hid.Report`).
  `Action.SetButtonMeaning` states it against a group-by-group reference,
  `Action.Written`. `Action.SetButtonCode` is the same switch applied to a raw code.
  `Action.Step` is `BUTTON_MAP_t`; its `wait_time` is a `u16`, so 0..65535.
- **eatMeat.c.** This script uses the "echo-hold" timing.
  - Every report the phase logic produces is saved and replayed on the next
    five ticks.
  - A `waitJump` countdown then sends neutral reports, each of which is echoed
    in turn.
  - `EatMeat.Act` is the `switch (state)`, and `EatMeat.Next` is one whole call.
  - `EatMeatTiming` lifts single ticks to whole action cycles.
  - `EatMeatScript` follows the phase graph: SYNC, the three shopping tables,
    the counted blade-change loop, the eat loop of about 300 presses
    (`301 - report_count`), the confirm table, and the terminal DONE.
- **missionAll.c and openCard.c.** Both scripts share one "hold/wait" gate.
  - `Gate.Respond` is the gate, generic in the script's phase variables. A call
    either holds (`holding && hold_time`), waits (`waiting && wait_time`), or
    runs the script's action and re-arms the hold.
  - Each script is a `Gate.Script`: its action on the cleared report, and its
    `wait_time` variable.
  - `MissionAll.Act` follows SYNC → PREPARE → CHOOSE_PEOPLE → START_MISSION →
    WAITING → PREPARE, forever.
  - `CardDraw.Act` follows SYNC → PREPARE → OPEN_CARD, after which OPEN_CARD
    replays its table forever.

The source keeps its state in globals. Here they are fields of immutable
records, and each script is a step function `state -> (report, state)`. That
function is iterated by `Machine.Final` (the state after n steps) and
`Machine.Trace` (the outputs of n steps). Properties are stated at two grains:

- per tick, for the timing logic;
- per action, for the phase logic (`ActRun` / `Gate.Actions`).

The per-tick and per-action views are tied together in two steps.
`RunFollowsActions` says the phase variables after the ticks of n action
cycles are those after n actions. `RunReportsFollowActions` says the reports
of those ticks are the actions' reports, each expanded by its echoes, hold or
wait. The re-sync burst shared by the three scripts is `Resync.SyncReport`.

The numeric values of `SWITCH_*`, `HAT_*` and `STICK_*` live in Joystick.h,
which is not part of this model. Hats and stick positions are enumerations.
Each `SWITCH_*` is its own bit of the 16-bit mask, and nothing depends on the
bit positions beyond "one bit each, pairwise distinct". So a mask is modelled
as the set of buttons whose bits are set, OR-ing a bit in is set union, and
the empty set is mask 0.

Behaviours of the code that the model reproduces as written:

- **`PAD_RIGHT`** writes `HAT_TOP_RIGHT`, not `HAT_RIGHT` (action.c:37-38).
- **SYNC exit.** SYNC bumps `report_count` after resetting it, so PREPARE is
  entered with the count at 1, not 0. In missionAll.c and openCard.c the
  `wait_time = 500` set on the way out is overwritten by the `wait_time = 0`
  that follows. So once the power-up hold and wait are over (the engine starts
  in SYNC with `wait_time` 50), the gate never waits again until PREPARE's
  first row.
- **SYNC timing.** The move to PREPARE happens on the 102nd action, the first
  one with `report_count > 100`. The first 101 actions are the re-sync burst.
- **First eat loop.** In eatMeat.c the first EATING loop starts with
  `report_count` at 1, left over from SYNC, so it presses A 300 times. Later
  loops start at 0 and press 301 times. `EatMeatScript.EatingLoop` states the
  general count, `301 - report_count`.
- **Blade loop.** The blade-change loop selects three blades per round. With
  the shipped target of 62 it runs 21 rounds and stops at blade 63.
- **Re-sync presses.** SYNC presses L+R at counts 25 and 50 and A at counts
  75 and 100; every other count sends the cleared report.
- **Terminal state.** Only eatMeat.c has a terminal DONE. missionAll.c and
  openCard.c cycle forever, which `MissionAllScript.MissionLoopCycles` and
  `CardDrawScript.CardLoopCycles` prove.
- **Blade loop target.** The blade loop of eatMeat.c moves three blades per
  round and stops at the first multiple of three at or above the target
  (`EatMeatScript.RoundsReachDone`).

## Model

| member | source | states |
|---|---|---|
| Action.DecodeCode | action.h:10-50 | decoding the code of any enumerator gives that enumerator back |
| Action.CodeDecode | action.h:10-50 | a value that decodes at all names the enumerator whose code is exactly that value |
| Action.DecodeSomeIffCode | action.h:10-50 | decoding succeeds on exactly the codes of the enumerators |
| Action.CodeInjective | action.h:10-50 | the codes are pairwise distinct, and each fits in a byte |
| Action.CodeLandmarks | action.h:11-49 | `BUTTON_RESET` is 0; `R_STICK_TOP` is 0x1F and `R_STICK_TOP_LEFT` is 0x21, so 0x20 names nothing; nothing from 0x28 up names anything |
| Action.CodeGroups | action.h:11-33 | in both directions: reset is code 0, the pad actions are 0x01-0x08, the button actions are 0x09-0x16 |
| Action.StickCodeGroups | action.h:34-49 | in both directions: the left-stick actions are 0x17-0x1E, the right-stick actions are 0x1F-0x27 |
| Action.SetButtonCode | action.c:5-147 | a raw code that names no enumerator leaves the report unchanged; the code of an enumerator acts as that enumerator |
| Action.UnassignedCodeIsNoOp | action.c:6-146 | 0x20, and every code below 0 or above 0x27, leaves the report unchanged |
| Action.ButtonBitRoundTrip | action.c:40-81 | button actions and `SWITCH_*` bits correspond one to one, in both directions |
| Action.ButtonBitInjective | action.c:40-81 | distinct button actions set distinct bits |
| Action.ResetIsNeutral | action.c:7-15 | reset gives the neutral report whatever the input (empty mask, centred sticks and hat, vendor byte 0), so it is idempotent |
| Action.ButtonSetsBit | action.c:40-81 | a button action ORs in exactly its own bit and leaves hat, sticks and vendor byte unchanged |
| Action.ButtonIdempotent | action.c:40-81 | pressing the same button twice gives the same report as pressing it once |
| Action.ButtonsCommute | action.c:40-81 | two button actions give the same report in either order |
| Action.PadSetsHat | action.c:16-36 | a pad action other than `PAD_RIGHT` sets the hat to its own direction and changes nothing else |
| Action.PadRightIsTopRight | action.c:37-39 | `PAD_RIGHT` behaves exactly as `PAD_TOP_RIGHT`: the hat goes top-right, which is not the pad's own direction |
| Action.LeftStickDeflects | action.c:82-113 | a left-stick action sets only (LX, LY), to MIN/MAX in its direction and CENTER across it |
| Action.RightStickDeflects | action.c:114-145 | a right-stick action sets only (RX, RY), in the same way |
| Action.OneFieldGroup | action.c:5-147 | from the neutral report an action changes at most one of: the buttons, the hat, the sticks; the vendor byte stays 0 |
| Action.SetButtonMeaning | action.c:5-147 | for every report and action, `setButton` equals the group-wise reference: reset gives the neutral report, a button ORs its bit, a pad action sets the hat (`PAD_RIGHT` top-right), a stick action deflects only its own stick |
| EatMeat.Act | eatMeat.c:262-399 | the phase logic keeps the cursor invariant: inside the active table, and 0 in phases without a table |
| EatMeat.Next | eatMeat.c:241-406 | one whole call keeps the cursor invariant |
| EatMeatTiming.EchoReplay | eatMeat.c:251-256 | while echoes are pending, each call replays the saved report and only counts the echoes down |
| EatMeatTiming.Echoed | eatMeat.c:402-404 | every non-echo report is saved and sent again on exactly the next `ECHOES` calls, which change nothing else |
| EatMeatTiming.WaitTick | eatMeat.c:243-404 | a non-echo call with `waitJump > 0` sends the neutral report, counts `waitJump` down, and re-arms the five echoes with that neutral report; the phase variables are unchanged |
| EatMeatTiming.WaitDrain | eatMeat.c:259-260 | a pending `waitJump` of w costs `6 * w` neutral reports and leaves the phase variables alone |
| EatMeatTiming.Cycle | eatMeat.c:241-406 | one action cycle sends the action's report 6 times, then `6 * waitJump` neutral reports, and ends ready with the action's phase variables |
| EatMeatTiming.ActRunValid | eatMeat.c:262-399 | the cursor invariant holds after any number of actions |
| EatMeatTiming.RunFollowsActions | eatMeat.c:241-406 | the ticks of n action cycles move the phase variables exactly n actions forward |
| EatMeatTiming.ActWaitAt | eatMeat.c:262-399 | the i-th wait of a run of actions is the `waitJump` left by the i-th action |
| EatMeatTiming.TicksFromWaits | eatMeat.c:241-406 | n action cycles take 6 ticks per action plus 6 per unit of `waitJump` the actions leave |
| EatMeatTiming.RunReportsFollowActions | eatMeat.c:241-406 | the reports of n action cycles are, action by action, its report six times then `6 * waitJump` neutral reports |
| EatMeatTiming.ReportOrigin | eatMeat.c:243-260 | every report sent is a replay, the neutral wait report, or an action's report, and an action's report only when nothing is pending |
| EatMeatScript.SyncRun | eatMeat.c:263-274 | up to count 101 each SYNC action only increments `report_count` |
| EatMeatScript.SyncReports | eatMeat.c:268-272 | SYNC sends L+R at counts 25 and 50, A at 75 and 100, neutral otherwise |
| EatMeatScript.SyncTicks | eatMeat.c:263-274 | the SYNC actions wait nothing: each costs one report and its five echoes |
| EatMeatScript.SyncSchedule | eatMeat.c:263-274 | from power-up, in both directions: report i of the burst is L+R iff i is 25 or 50, A iff i is 75 or 100, neutral otherwise |
| EatMeatScript.SyncExit | eatMeat.c:264-273 | SYNC lasts 101 actions; the 102nd sends neutral, sets `waitJump` to 200 and enters PREPARE with `report_count` 1 |
| EatMeatScript.SyncDuration | eatMeat.c:263-274 | the burst takes 606 ticks, after which the engine is ready with the count at 101 |
| EatMeatScript.SyncTickSchedule | eatMeat.c:263-274 | at tick level: the six ticks of the i-th SYNC action all send the re-sync report for count i |
| EatMeatScript.TableWalk | eatMeat.c:275-316 | a table phase advances the cursor by one per action; at the table's end the cursor returns to 0 and the phase moves on |
| EatMeatScript.TableReports | eatMeat.c:276-281 | each table action sends the button and hat of the row under the cursor |
| EatMeatScript.ActionWaits | eatMeat.c:262-399 | the `waitJump` each phase leaves: the row's duration in table phases, 200 on leaving SYNC, 20 for CHANGE_POS, CHANGE_PRE and CHANGING, 10 for EATING, 0 in DONE |
| EatMeatScript.TableWaits | eatMeat.c:275-384 | along a table phase the i-th action waits the duration of row i |
| EatMeatScript.TablePhaseTicks | eatMeat.c:275-384 | a whole table phase takes 6 ticks per row plus 6 per unit of the rows' summed durations |
| EatMeatScript.TablePhase | eatMeat.c:275-396 | a whole table phase from its first row ends in the next phase with the cursor at 0 |
| EatMeatScript.ChangePosAction | eatMeat.c:317-332 | CHANGE_POS moves to blade b+1, aims at line b/5 and column b%5, and sends the hat down unless (b+1)%3 == 1 |
| EatMeatScript.GridDivMod | eatMeat.c:319-320 | the counted grid line and column are `(bladePos-1)/5` and `(bladePos-1)%5` |
| EatMeatScript.ChangingLoop | eatMeat.c:338-354 | CHANGING takes line + row + 1 actions and ends in EAT_PRE iff bladePos%3 == 0, and in CHANGE_POS otherwise |
| EatMeatScript.ChangingMoves | eatMeat.c:338-346 | CHANGING sends the hat down `line` times, right `row` times, then A |
| EatMeatScript.BladeChangeHead | eatMeat.c:317-337 | CHANGE_POS then CHANGE_PRE: the hat move and A, ending in CHANGING aimed at the blade's cell |
| EatMeatScript.BladeChange | eatMeat.c:317-354 | one blade change from CHANGE_POS selects blade b+1 and goes to EAT_PRE iff (b+1)%3 == 0 |
| EatMeatScript.BladeChangeReports | eatMeat.c:317-354 | the reports of one blade change, in order |
| EatMeatScript.TwoBlades | eatMeat.c:317-354 | from a multiple of three, the first two blade changes return to CHANGE_POS |
| EatMeatScript.ThreeBlades | eatMeat.c:345-353 | from a multiple of three, exactly three blades are selected before EAT_PRE |
| EatMeatScript.EatingPrefix | eatMeat.c:369-372 | before the exit, EATING only counts `report_count` up |
| EatMeatScript.EatingLoop | eatMeat.c:369-378 | EATING lasts `301 - report_count` actions, stays in EATING until then, then enters CONFIRM_BLADE with count and cursor reset |
| EatMeatScript.EatingTicks | eatMeat.c:369-372 | each EATING action before the exit costs 66 ticks: six A reports and a wait of 10 echoed six times |
| EatMeatScript.EatingPresses | eatMeat.c:370 | every EATING action presses A |
| EatMeatScript.Shopping | eatMeat.c:275-316 | PREPARE, BUYING and CHANGE_BLADE run in order and hand over to CHANGE_POS |
| EatMeatScript.EatAndConfirm | eatMeat.c:355-396 | from EAT_PRE the script eats and confirms, ending in DONE iff `bladePos >= bladeNum`, else in PREPARE |
| EatMeatScript.ChangeAndEat | eatMeat.c:317-396 | the blade loop from a multiple of three, then eating and confirming |
| EatMeatScript.Round | eatMeat.c:275-396 | one round from PREPARE changes three blades, eats, confirms, and ends where `RoundEnd` says |
| EatMeatScript.RoundsLeftClosedForm | eatMeat.c:388-395 | the loop runs once, then until the blade count reaches the target: max(1, ceil((n-b)/3)) rounds |
| EatMeatScript.RoundsReachDone | eatMeat.c:275-396 | from any round start, DONE is reached after exactly `RoundsLeft` rounds, at the first multiple of three at or above the target |
| EatMeatScript.RoundsReachDoneSometime | eatMeat.c:388-395 | some number of actions from any round start reaches DONE |
| EatMeatScript.FirstRoundReachesDone | eatMeat.c:388-395 | with the shipped target of 62, DONE is reached with blade 63 selected |
| EatMeatScript.ScriptReachesDone | eatMeat.c:241-406 | from power-up the script reaches DONE with blade 63, after finitely many actions and ticks |
| EatMeatScript.ShippedRounds | eatMeat.c:158 | the shipped target takes 21 rounds |
| EatMeatScript.DoneAbsorbing | eatMeat.c:397-398 | DONE is absorbing: no number of ticks changes the phase variables again |
| EatMeatScript.DoneStaysNeutral | eatMeat.c:397-404 | once DONE has drained, every tick sends the neutral report, forever |
| EatMeatScript.DoneDrains | eatMeat.c:397-404 | every DONE state drains, after its pending echoes and wait, to one that sends only neutral reports |
| Resync.SyncReportCases | eatMeat.c:268-272 | in both directions: the burst report for count k is L+R iff k is 25 or 50, A iff k is 75 or 100, and neutral otherwise |
| Resync.SyncPressSchedule | missionAll.c:277-282 | pressing L then R, or A, on the cleared report gives exactly the re-sync schedule |
| Gate.BufferIrrelevant | missionAll.c:251 | the buffer is reset first, so its earlier contents never show |
| Gate.QuietUnlessActing | missionAll.c:251-268 | hold and wait calls send the neutral report and leave the phase variables alone; only actions send anything else |
| Gate.HoldThenWait | missionAll.c:253-267 | a hold is followed by a wait iff `wait_time` is non-zero, otherwise by an action |
| Gate.WaitThenAct | missionAll.c:261-268 | a wait is always followed by an action |
| Gate.ActionThenHold | missionAll.c:338-339 | an action re-arms the hold with non-zero `hold_time`, so the next call holds |
| Gate.NoActionsBackToBack | openCard.c:256-257 | along any run, a call that acts is followed by one that holds: two action reports are never consecutive |
| Gate.Cycle | openCard.c:197-258 | one action cycle is the action's report, a neutral hold and, iff the action left `wait_time` non-zero, a neutral wait; then the gate is ready again |
| Gate.RunFollowsActions | openCard.c:197-258 | the ticks of n action cycles move the phase variables exactly n actions forward |
| Gate.Respond | missionAll.c:249-341 | one call: an action sends the action's report and moves the phase variables, a hold or wait sends neutral and keeps them; action then hold, hold then wait iff `wait_time` is non-zero, wait then action |
| Gate.RunReportsFollowActions | openCard.c:197-258 | the reports of n action cycles are, action by action, its report, a neutral hold, and a neutral wait iff the action left `wait_time` non-zero |
| Gate.StartUp | openCard.c:187-216 | at power-up the gate holds once, waits once iff `wait_time` is non-zero, then acts, sending only neutral reports until then |
| MissionAll.Act | missionAll.c:270-336 | the phase logic keeps the cursor invariant |
| MissionAllScript.ActionsValid | missionAll.c:286-324 | the cursor invariant holds after any number of actions |
| MissionAllScript.SyncRun | missionAll.c:271-285 | up to count 101 each SYNC action only increments `report_count` and sets `wait_time` to 0 |
| MissionAllScript.SyncReports | missionAll.c:277-282 | SYNC sends L+R at counts 25 and 50, A at 75 and 100, neutral otherwise |
| MissionAllScript.SyncWaitsNothing | missionAll.c:272-284 | every SYNC action, the exit included, leaves `wait_time` at 0; the exit happens iff the count passes 100 |
| MissionAllScript.SyncSchedule | missionAll.c:271-285 | from power-up, in both directions: report i is L+R iff i is 25 or 50, A iff i is 75 or 100, neutral otherwise |
| MissionAllScript.SyncExit | missionAll.c:272-284 | the 102nd action sends neutral and enters PREPARE at row 0, with `report_count` 1 and `wait_time` 0 |
| MissionAllScript.SyncTicks | missionAll.c:249-285 | each SYNC action costs exactly two ticks: the action and its hold |
| MissionAllScript.SyncTickSchedule | missionAll.c:249-285 | at tick level, from power-up: the i-th SYNC action sends the re-sync report for count i, then a neutral hold |
| MissionAllScript.TableWalk | missionAll.c:286-316 | a table phase advances the cursor by one per action and copies each row's `wait_time`; after the last row it moves on from row 0 |
| MissionAllScript.TableReports | missionAll.c:286-316 | each table action sends the row's action on the cleared report |
| MissionAllScript.TablePhase | missionAll.c:286-316 | a whole table phase plays its table in order and ends where `TableEnd` says |
| MissionAllScript.PrepareAndChoose | missionAll.c:286-305 | PREPARE then CHOOSE_PEOPLE play their tables and hand over to START_MISSION |
| MissionAllScript.MissionRound | missionAll.c:286-335 | one round is 70 actions that play the three tables and WAITING's neutral report, and returns to PREPARE at row 0 with the mission time spent |
| MissionAllScript.MissionForever | missionAll.c:286-335 | from a round's settled start, every 70 actions return to it: the script never ends |
| MissionAllScript.PowerUp | missionAll.c:238-267 | at power-up the gate holds and waits once, then SYNC runs from its initial values |
| MissionAllScript.ActionsReachLoop | missionAll.c:271-335 | the phase logic alone reaches the loop's settled start after the burst and one round |
| MissionAllScript.ReachesMissionLoop | missionAll.c:249-341 | from power-up the whole engine, gate included, reaches the loop's settled start |
| MissionAllScript.MissionLoopCycles | missionAll.c:249-341 | from there, the ticks of one round bring the engine back exactly |
| CardDraw.Act | openCard.c:218-254 | the phase logic keeps the cursor invariant |
| CardDrawScript.ActionsValid | openCard.c:235-253 | the cursor invariant holds after any number of actions |
| CardDrawScript.SyncRun | openCard.c:219-234 | up to count 101 each SYNC action only increments `report_count` and sets `wait_time` to 0 |
| CardDrawScript.SyncReports | openCard.c:225-230 | SYNC sends L+R at counts 25 and 50, A at 75 and 100, neutral otherwise |
| CardDrawScript.SyncSchedule | openCard.c:219-234 | from power-up, in both directions: report i is L+R iff i is 25 or 50, A iff i is 75 or 100, neutral otherwise |
| CardDrawScript.SyncExit | openCard.c:220-232 | the 102nd action sends neutral and enters PREPARE at row 0, with `report_count` 1 and `wait_time` 0 |
| CardDrawScript.SyncTicks | openCard.c:197-234 | each SYNC action costs exactly two ticks: the action and its hold |
| CardDrawScript.SyncTickSchedule | openCard.c:197-234 | at tick level, from power-up: the i-th SYNC action sends the re-sync report for count i, then a neutral hold |
| CardDrawScript.TableWalk | openCard.c:235-253 | a table phase advances the cursor by one per action and copies each row's `wait_time`; after the last row OPEN_CARD starts from row 0 |
| CardDrawScript.TableReports | openCard.c:235-253 | each table action sends the row's action on the cleared report |
| CardDrawScript.TablePhase | openCard.c:235-253 | a whole table phase plays its table in order and ends where `TableEnd` says |
| CardDrawScript.PrepareOnce | openCard.c:235-244 | the prepare table is played once and hands over to OPEN_CARD at row 0 |
| CardDrawScript.CardRound | openCard.c:245-253 | twelve OPEN_CARD actions play the card table and return to row 0 of OPEN_CARD |
| CardDrawScript.CardsForever | openCard.c:245-253 | OPEN_CARD never ends: every twelve actions return to the same state |
| CardDrawScript.ActionsReachLoop | openCard.c:219-253 | the phase logic alone reaches the card loop's settled start |
| CardDrawScript.ReachesCardLoop | openCard.c:197-259 | from power-up the whole engine, gate included, reaches the card loop's settled start |
| CardDrawScript.CardLoopCycles | openCard.c:197-259 | from there, the ticks of one card round bring the engine back exactly |

## Left out

- USB transport: `main`, `SetupHardware`, the `EVENT_USB_*` handlers and `HID_Task` in all three scripts. These are endpoint I/O and register setup; the model starts at `GetNextReport`.
- `delay()` in action.c and the `_delay_ms` loop in WAITING: they block in real time on a `double`. Hold and wait durations are kept as the recorded integers, and the WAITING loop is modelled by its effect, `mission_time` reaching 0 in one step.
- The PORTD/PORTB LED writes and `ports_val`: hardware side effects that do not touch the report.
- lcd1602.h: an empty include guard.
- Joystick.h is not part of this model: the numeric values of `SWITCH_*`, `HAT_*` and `STICK_*` are kept symbolic. The button mask is the set of set bits, which is exact given one distinct bit per `SWITCH_*`.
- The unused `eatCount`, and the temporaries `button` and `hat` in eatMeat.c, which are written and read back in the same case.
- C `int` overflow: `report_count`, `bladePos`, `mapPos` and the other counters are unbounded naturals. No run of the shipped scripts gets near 32767.
- The caller's buffer: eatMeat.c clears the report with `memset` and missionAll.c/openCard.c with `setButton(…, BUTTON_RESET)`. The model starts every call from the neutral report (`Gate.BufferIrrelevant`).
- `ActStep` (in each script): outside the cursor invariant, which no run leaves, the model's action stands still instead of reading past a table. The C code would read out of bounds there.
- The source's `last_report` starts as zero memory. The model starts it at the neutral report. It is never sent before it is first written, because `echoes` starts at 0.
- `hold_time` is never 0 in the shipped scripts: it starts at 50 and nothing lowers it. The re-arm to 50 on a zero value is modelled anyway.

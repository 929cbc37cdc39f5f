/**
 * The controller re-sync burst every script opens with: for `report_count`
 * up to 100 the SYNC_CONTROLLER branch presses L+R at counts 25 and 50, A at
 * 75 and 100, and sends the cleared report otherwise.
 */
module Resync {
  import opened Hid
  import opened Action

  /** The report of the re-sync burst for `report_count` k: L+R, A, or nothing. */
  function SyncReport(k: nat): Report {
    if k == 25 || k == 50 then Press({L, R}, Center)
    else if k == 75 || k == 100 then Press({A}, Center)
    else Neutral
  }

  /** The re-sync burst tells its three kinds of report apart: which counts press L+R, which press A, which are quiet. */
  lemma SyncReportCases(k: nat)
    ensures SyncReport(k) == Press({L, R}, Center) <==> k == 25 || k == 50
    ensures SyncReport(k) == Press({A}, Center) <==> k == 75 || k == 100
    ensures SyncReport(k) == Neutral <==> k != 25 && k != 50 && k != 75 && k != 100
  {
    assert L in Press({L, R}, Center).button && L !in Press({A}, Center).button;
    assert A !in Neutral.button && L !in Neutral.button;
  }

  /** The report the SYNC_CONTROLLER branch builds on the cleared report for `report_count` k (up to 100). */
  function SyncPress(k: nat): Report {
    if k == 25 || k == 50 then SetButton(SetButton(Neutral, ButtonL), ButtonR)
    else if k == 75 || k == 100 then SetButton(Neutral, ButtonA)
    else Neutral
  }

  /** Pressing L then R, or A, on the cleared report gives exactly the re-sync schedule's reports. */
  lemma SyncPressSchedule(k: nat)
    ensures SyncPress(k) == SyncReport(k)
  {
    ButtonSetsBit(Neutral, ButtonL);
    ButtonSetsBit(SetButton(Neutral, ButtonL), ButtonR);
    assert {L} + {R} == {L, R};
  }
}

/** The kill button of the older processes page
    (`features/system-monitor/pages/processes.tsx`): one DELETE request per
    click, then a notice saying whether it went through. The request's
    outcome is a parameter. */
module LegacyProcesses {
  import opened Text
  import opened Snackbars

  class LegacyProcessesPage {
    var notice: SnackbarState
    /** The URLs deleted so far, oldest first. */
    var deleted: seq<string>

    constructor()
      ensures notice == SnackbarState(false, "", Success) && deleted == []
    {
      notice := SnackbarState(false, "", Success);
      deleted := [];
    }

    /** `handleKill(pid)`: the request is sent whatever the pid, and the
        notice reports the outcome. */
    method HandleKill(pid: int, succeeded: bool)
      modifies this
      ensures deleted == old(deleted) + ["/api/system/processes/" + IntToString(pid)]
      ensures succeeded ==> notice == SnackbarState(true, "Killed process " + IntToString(pid), Success)
      ensures !succeeded ==> notice == SnackbarState(true, "Failed to kill process " + IntToString(pid), Error)
    {
      deleted := deleted + ["/api/system/processes/" + IntToString(pid)];
      if succeeded {
        notice := SnackbarState(true, "Killed process " + IntToString(pid), Success);
      } else {
        notice := SnackbarState(true, "Failed to kill process " + IntToString(pid), Error);
      }
    }
  }

  /** Each click sends its own request, and the notice shows the latest
      outcome only. */
  method KillTwiceScenario(a: int, b: int) returns (sent: nat, shown: SnackbarState)
    ensures sent == 2
    ensures shown == SnackbarState(true, "Failed to kill process " + IntToString(b), Error)
  {
    var page := new LegacyProcessesPage();
    page.HandleKill(a, true);
    page.HandleKill(b, false);
    sent := |page.deleted|;
    shown := page.notice;
  }
}

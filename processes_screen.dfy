/** The processes screen (`pages/processes/processes.screen.tsx`) and the
    hook behind it (`hooks/use-processes.ts`): the selected pids, the
    kill/suspend/resume batches sent to the server, the confirm dialog, and
    which toolbar buttons are enabled. Each request of a batch is sent, and
    whether it fails is decided by a function fixed when the page is
    created; the batch succeeds when none fails, as `Promise.all` does. */
module ProcessesScreen {
  import opened Wrappers
  import opened Text
  import opened Lists
  import opened ProcessStatuses
  import opened ProcessSearch
  import opened Snackbars

  datatype Request = Delete(url: string) | Patch(url: string)

  /** `/api/system/processes/{pid}` plus `/force` for a forced kill. */
  function KillUrl(pid: int, isForce: bool): (url: string)
    ensures EndsWith(url, "/force") <==> isForce
  {
    var base := "/api/system/processes/" + IntToString(pid);
    var url := base + (if isForce then "/force" else "");
    assert !isForce ==> url[|url| - 6..] != "/force" by {
      if !isForce {
        assert url[|url| - 1] == base[|base| - 1];
        assert IsDigit(base[|base| - 1]) by {
          var m: nat := if pid < 0 then -pid else pid;
          assert base[|base| - 1] == NatToString(m)[|NatToString(m)| - 1];
        }
      }
    }
    url
  }

  function KillRequests(pids: seq<int>, isForce: bool): (r: seq<Request>)
    ensures |r| == |pids|
    ensures forall k :: 0 <= k < |pids| ==> r[k] == Delete(KillUrl(pids[k], isForce))
  {
    Map(pids, (pid: int) => Delete(KillUrl(pid, isForce)))
  }

  /** One PATCH per pid, in order, to `/api/system/processes/{pid}/{verb}`
      (`verb` is "suspend" or "resume"). */
  function PatchRequests(pids: seq<int>, verb: string): (r: seq<Request>)
    ensures |r| == |pids|
    ensures forall k :: 0 <= k < |pids| ==> r[k] == Patch("/api/system/processes/" + IntToString(pids[k]) + "/" + verb)
  {
    Map(pids, (pid: int) => Patch("/api/system/processes/" + IntToString(pid) + "/" + verb))
  }

  /** The label of a kill in the notifications. */
  function ActionLabel(isForce: bool): string {
    if isForce then "Buộc dừng" else "Kết thúc"
  }

  /** `selectedProcesses`: the rows whose pid is selected, in row order. */
  function SelectedProcesses(rows: seq<ClientProcess>, selectedPids: seq<int>): (r: seq<ClientProcess>)
    ensures forall k :: 0 <= k < |r| ==> r[k].pid in selectedPids
    ensures forall k :: 0 <= k < |rows| && rows[k].pid in selectedPids ==> rows[k] in r
    ensures multiset(r) <= multiset(rows)
  {
    Filter(rows, (p: ClientProcess) => p.pid in selectedPids)
  }

  /** `canKill`. */
  predicate CanKill(selectedPids: seq<int>) {
    |selectedPids| > 0
  }

  /** A status suspend acts on: running or sleeping. */
  predicate Suspendable(st: ProcessStatus) {
    st == Running || st == Sleeping
  }

  /** A status resume acts on: stopped. */
  predicate Resumable(st: ProcessStatus) {
    st == Stopped
  }

  /** `canSuspend`. */
  predicate CanSuspend(rows: seq<ClientProcess>, selectedPids: seq<int>) {
    var sel := SelectedProcesses(rows, selectedPids);
    |selectedPids| > 0 && exists k :: 0 <= k < |sel| && Suspendable(sel[k].status)
  }

  /** `canResume`. */
  predicate CanResume(rows: seq<ClientProcess>, selectedPids: seq<int>) {
    var sel := SelectedProcesses(rows, selectedPids);
    |selectedPids| > 0 && exists k :: 0 <= k < |sel| && Resumable(sel[k].status)
  }

  /** Some selected row has a status `good` accepts exactly when some row
      whose pid is selected does. */
  lemma SelectedWith(rows: seq<ClientProcess>, selectedPids: seq<int>, good: ProcessStatus -> bool)
    ensures var sel := SelectedProcesses(rows, selectedPids);
      (exists k :: 0 <= k < |sel| && good(sel[k].status)) <==>
      (exists k :: 0 <= k < |rows| && rows[k].pid in selectedPids && good(rows[k].status))
  {
    var sel := SelectedProcesses(rows, selectedPids);
    if exists k :: 0 <= k < |sel| && good(sel[k].status) {
      var k :| 0 <= k < |sel| && good(sel[k].status);
      assert sel[k] in multiset(rows);
      var j :| 0 <= j < |rows| && rows[j] == sel[k];
    }
    if exists k :: 0 <= k < |rows| && rows[k].pid in selectedPids && good(rows[k].status) {
      var k :| 0 <= k < |rows| && rows[k].pid in selectedPids && good(rows[k].status);
      var j :| 0 <= j < |sel| && sel[j] == rows[k];
    }
  }

  /** Suspend is enabled exactly when a selected row is running or
      sleeping, and resume exactly when a selected row is stopped. */
  lemma EnabledActions(rows: seq<ClientProcess>, selectedPids: seq<int>)
    ensures CanSuspend(rows, selectedPids) <==>
      exists k :: 0 <= k < |rows| && rows[k].pid in selectedPids && Suspendable(rows[k].status)
    ensures CanResume(rows, selectedPids) <==>
      exists k :: 0 <= k < |rows| && rows[k].pid in selectedPids && Resumable(rows[k].status)
  {
    SelectedWith(rows, selectedPids, Suspendable);
    SelectedWith(rows, selectedPids, Resumable);
  }

  // ---------------------------------------------------------------------
  // The confirm dialog

  datatype KillKind = Terminate | Force

  datatype ConfirmDialog = ConfirmDialog(open: bool, pid: Option<int>, pids: Option<seq<int>>, kind: Option<KillKind>)

  const ClosedDialog := ConfirmDialog(false, None, None, None)

  /** A pid argument as JavaScript tests it: given and not 0. */
  predicate GivenPid(pid: Option<int>) {
    pid.Some? && pid.value != 0
  }

  /** `handleTerminateClick(pid)` / `handleForceKillClick(pid)`: the
      dialog opens; without a pid it records the current selection. */
  function Clicked(pid: Option<int>, kind: KillKind, selectedPids: seq<int>): (d: ConfirmDialog)
    ensures d.open && d.kind == Some(kind) && d.pid == pid
    ensures GivenPid(pid) ==> d.pids.None?
    ensures !GivenPid(pid) ==> d.pids == Some(selectedPids)
  {
    ConfirmDialog(true, pid, if GivenPid(pid) then None else Some(selectedPids), Some(kind))
  }

  /** The pids a confirm kills: the dialog's own pid, else the pids it
      recorded, else the current selection. */
  function PidsToKill(d: ConfirmDialog, selectedPids: seq<int>): (pids: seq<int>)
    ensures GivenPid(d.pid) ==> pids == [d.pid.value]
    ensures !GivenPid(d.pid) && d.pids.Some? ==> pids == d.pids.value
    ensures !GivenPid(d.pid) && d.pids.None? ==> pids == selectedPids
  {
    if GivenPid(d.pid) then [d.pid.value] else d.pids.GetOr(selectedPids)
  }

  /** A click followed by a confirm kills the clicked pid, or the
      selection as it was at the click, whatever was selected since. */
  lemma ClickThenConfirm(pid: Option<int>, kind: KillKind, atClick: seq<int>, atConfirm: seq<int>)
    ensures GivenPid(pid) ==> PidsToKill(Clicked(pid, kind, atClick), atConfirm) == [pid.value]
    ensures !GivenPid(pid) ==> PidsToKill(Clicked(pid, kind, atClick), atConfirm) == atClick
  {
  }

  class ProcessesPage {
    var selectedPids: seq<int>
    var dialog: ConfirmDialog
    /** Every request sent, oldest first. */
    var requests: seq<Request>
    const snackbar: Snackbar
    const requestFails: Request -> bool

    constructor(requestFails: Request -> bool)
      ensures selectedPids == [] && dialog == ClosedDialog && requests == []
      ensures fresh(snackbar) && snackbar.state == Initial
      ensures this.requestFails == requestFails
    {
      selectedPids := [];
      dialog := ClosedDialog;
      requests := [];
      snackbar := new Snackbar();
      this.requestFails := requestFails;
    }

    /** Whether a batch succeeds: no request of it fails. */
    predicate BatchSucceeds(batch: seq<Request>) {
      forall k :: 0 <= k < |batch| ==> !requestFails(batch[k])
    }

    /** Sends a batch; on success the selection is cleared and the success
        message shown, on failure the selection stays and the error is
        shown. An empty batch does nothing and answers nothing. */
    method SendBatch(batch: seq<Request>, success: string, failure: string) returns (r: Option<bool>)
      modifies this, snackbar
      ensures batch == [] ==> r.None? && requests == old(requests) && selectedPids == old(selectedPids)
      ensures batch == [] ==> snackbar.state == old(snackbar.state)
      ensures batch != [] ==> requests == old(requests) + batch && r == Some(BatchSucceeds(batch))
      ensures batch != [] && BatchSucceeds(batch) ==> selectedPids == [] && snackbar.state == Shown(success, Some(Success))
      ensures batch != [] && !BatchSucceeds(batch) ==> selectedPids == old(selectedPids) && snackbar.state == Shown(failure, Some(Error))
      ensures dialog == old(dialog)
    {
      if batch == [] {
        return None;
      }
      requests := requests + batch;
      var ok := true;
      var k := 0;
      while k < |batch|
        invariant 0 <= k <= |batch|
        invariant ok <==> forall j :: 0 <= j < k ==> !requestFails(batch[j])
      {
        if requestFails(batch[k]) {
          ok := false;
        }
        k := k + 1;
      }
      if ok {
        snackbar.Show(success, Some(Success));
        selectedPids := [];
      } else {
        snackbar.Show(failure, Some(Error));
      }
      r := Some(ok);
    }

    /** `handleKill(pids, isForce)`. */
    method HandleKill(pids: seq<int>, isForce: bool) returns (r: Option<bool>)
      modifies this, snackbar
      ensures pids == [] ==> r.None? && requests == old(requests) && selectedPids == old(selectedPids)
      ensures pids != [] ==> requests == old(requests) + KillRequests(pids, isForce)
      ensures pids != [] ==> r == Some(BatchSucceeds(KillRequests(pids, isForce)))
      ensures r == Some(true) ==> selectedPids == []
      ensures r == Some(false) ==> selectedPids == old(selectedPids)
      ensures dialog == old(dialog)
    {
      var verb := ToLower(ActionLabel(isForce));
      r := SendBatch(KillRequests(pids, isForce),
        "Đã " + verb + " " + IntToString(|pids|) + " tiến trình thành công",
        "Không thể " + verb + " một hoặc nhiều tiến trình");
    }

    /** `handleSuspend(pids)`. */
    method HandleSuspend(pids: seq<int>) returns (r: Option<bool>)
      modifies this, snackbar
      ensures pids == [] ==> r.None? && requests == old(requests) && selectedPids == old(selectedPids)
      ensures pids != [] ==> requests == old(requests) + PatchRequests(pids, "suspend")
      ensures pids != [] ==> r == Some(BatchSucceeds(PatchRequests(pids, "suspend")))
      ensures r == Some(true) ==> selectedPids == []
      ensures r == Some(false) ==> selectedPids == old(selectedPids)
      ensures dialog == old(dialog)
    {
      r := SendBatch(PatchRequests(pids, "suspend"),
        "Đã tạm dừng " + IntToString(|pids|) + " tiến trình thành công",
        "Không thể tạm dừng một hoặc nhiều tiến trình");
    }

    /** `handleResume(pids)`. */
    method HandleResume(pids: seq<int>) returns (r: Option<bool>)
      modifies this, snackbar
      ensures pids == [] ==> r.None? && requests == old(requests) && selectedPids == old(selectedPids)
      ensures pids != [] ==> requests == old(requests) + PatchRequests(pids, "resume")
      ensures pids != [] ==> r == Some(BatchSucceeds(PatchRequests(pids, "resume")))
      ensures r == Some(true) ==> selectedPids == []
      ensures r == Some(false) ==> selectedPids == old(selectedPids)
      ensures dialog == old(dialog)
    {
      r := SendBatch(PatchRequests(pids, "resume"),
        "Đã tiếp tục " + IntToString(|pids|) + " tiến trình thành công",
        "Không thể tiếp tục một hoặc nhiều tiến trình");
    }

    /** The row's or the toolbar's terminate / force-kill button. */
    method HandleKillClick(pid: Option<int>, kind: KillKind)
      modifies this
      ensures dialog == Clicked(pid, kind, old(selectedPids))
      ensures selectedPids == old(selectedPids) && requests == old(requests)
    {
      dialog := Clicked(pid, kind, selectedPids);
    }

    /** `handleKillConfirm()`: the dialog closes only when the kill
        succeeded. */
    method HandleKillConfirm() returns (r: Option<bool>)
      modifies this, snackbar
      ensures var pids := PidsToKill(old(dialog), old(selectedPids));
        && (pids != [] ==> requests == old(requests) + KillRequests(pids, old(dialog).kind == Some(Force)))
        && (pids != [] ==> r == Some(BatchSucceeds(KillRequests(pids, old(dialog).kind == Some(Force)))))
        && (pids == [] ==> requests == old(requests) && r.None?)
      ensures r == Some(true) ==> dialog == ClosedDialog && selectedPids == []
      ensures r != Some(true) ==> selectedPids == old(selectedPids)
      ensures r != Some(true) ==> dialog == old(dialog)
    {
      var pids := PidsToKill(dialog, selectedPids);
      r := HandleKill(pids, dialog.kind == Some(Force));
      if r == Some(true) {
        dialog := ClosedDialog;
      }
    }

    /** The dialog's cancel button. */
    method HandleCancel()
      modifies this
      ensures dialog == ClosedDialog
      ensures selectedPids == old(selectedPids) && requests == old(requests)
    {
      dialog := ClosedDialog;
    }

    /** `onSuspend(pid)`: the row's pid, else the selection. */
    method OnSuspend(pid: Option<int>) returns (r: Option<bool>)
      modifies this, snackbar
      ensures var pids := if GivenPid(pid) then [pid.value] else old(selectedPids);
        requests == old(requests) + PatchRequests(pids, "suspend")
      ensures dialog == old(dialog)
    {
      r := HandleSuspend(if GivenPid(pid) then [pid.value] else selectedPids);
    }

    /** `onResume(pid)`: the row's pid, else the selection. */
    method OnResume(pid: Option<int>) returns (r: Option<bool>)
      modifies this, snackbar
      ensures var pids := if GivenPid(pid) then [pid.value] else old(selectedPids);
        requests == old(requests) + PatchRequests(pids, "resume")
      ensures dialog == old(dialog)
    {
      r := HandleResume(if GivenPid(pid) then [pid.value] else selectedPids);
    }
  }

  /** Confirming a toolbar kill with nothing selected sends nothing, and
      the dialog then stays open; a kill of one row whose request fails
      keeps both the dialog and the selection. */
  method ConfirmScenario() returns (openAfterEmpty: bool, sentAfterEmpty: nat, openAfterFailure: bool, selectionKept: bool)
    ensures openAfterEmpty && sentAfterEmpty == 0
    ensures openAfterFailure && selectionKept
  {
    var page := new ProcessesPage((req: Request) => true);
    page.HandleKillClick(None, Terminate);
    assert PidsToKill(page.dialog, page.selectedPids) == [];
    var r1 := page.HandleKillConfirm();
    openAfterEmpty := page.dialog.open;
    sentAfterEmpty := |page.requests|;
    page.selectedPids := [42];
    page.HandleKillClick(Some(42), Force);
    var r2 := page.HandleKillConfirm();
    assert KillRequests([42], true)[0] == Delete(KillUrl(42, true));
    assert page.requestFails(KillRequests([42], true)[0]);
    assert !page.BatchSucceeds(KillRequests([42], true));
    openAfterFailure := page.dialog.open;
    selectionKept := page.selectedPids == [42];
  }
}

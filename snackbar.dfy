/** `useSnackbar`: the notification shown at the bottom of a page. Its
    state is a record that `showSnackbar` replaces and `onClose` closes. */
module Snackbars {
  import opened Wrappers

  datatype Severity = Success | Error | Warning | Info

  datatype SnackbarState = SnackbarState(open: bool, message: string, severity: Severity)

  /** The state a page starts with: closed, no message, `success`. */
  const Initial := SnackbarState(false, "", Success)

  /** `showSnackbar(message, severity = 'success')`. */
  function Shown(message: string, severity: Option<Severity>): (s: SnackbarState)
    ensures s.open && s.message == message
    ensures severity.None? ==> s.severity == Success
    ensures severity.Some? ==> s.severity == severity.value
  {
    SnackbarState(true, message, severity.GetOr(Success))
  }

  /** `onClose()`: closed, message and severity kept. */
  function Closed(s: SnackbarState): (r: SnackbarState)
    ensures !r.open && r.message == s.message && r.severity == s.severity
  {
    s.(open := false)
  }

  /** Closing twice is closing once, and closing forgets nothing that a
      later `showSnackbar` would not overwrite. */
  lemma ClosedIdempotent(s: SnackbarState, message: string, severity: Option<Severity>)
    ensures Closed(Closed(s)) == Closed(s)
    ensures Closed(Shown(message, severity)) == SnackbarState(false, message, severity.GetOr(Success))
  {
  }

  class Snackbar {
    var state: SnackbarState

    constructor()
      ensures state == Initial
    {
      state := Initial;
    }

    method Show(message: string, severity: Option<Severity>)
      modifies this
      ensures state == Shown(message, severity)
    {
      state := Shown(message, severity);
    }

    method OnClose()
      modifies this
      ensures state == Closed(old(state))
    {
      state := Closed(state);
    }

    /** `snackbarProps`: the current state, always. */
    function Props(): (p: SnackbarState)
      reads this
      ensures p == state
    {
      state
    }
  }

  /** A run on a fresh snackbar: shown with the default severity, closed
      twice, then shown as an error. */
  method SnackbarScenario() returns (states: seq<SnackbarState>)
    ensures states == [
      SnackbarState(true, "saved", Success),
      SnackbarState(false, "saved", Success),
      SnackbarState(false, "saved", Success),
      SnackbarState(true, "failed", Error)]
  {
    var bar := new Snackbar();
    bar.Show("saved", None);
    var s1 := bar.Props();
    bar.OnClose();
    var s2 := bar.Props();
    bar.OnClose();
    var s3 := bar.Props();
    bar.Show("failed", Some(Error));
    var s4 := bar.Props();
    states := [s1, s2, s3, s4];
  }
}

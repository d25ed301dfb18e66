/** The audit-log screen (`pages/audit-logs/audit-logs.screen.tsx`): the
    chip colour of an action and the state the periodic load leaves. The
    request itself is a parameter: its outcome is the list or a failure. */
module AuditLogsScreen {
  import opened Wrappers
  import opened Text

  /** An audit entry as the client receives it. */
  datatype AuditEntry = AuditEntry(id: string, action: string, target: string, details: string, performedBy: string, timestamp: string)

  datatype ChipColor = ErrorColor | SuccessColor | WarningColor | DefaultColor

  /** `getActionColor(action)`: deletions and kills first, then creations,
      then updates; case-sensitive substring tests. */
  function ActionColor(action: string): (c: ChipColor)
    ensures c == ErrorColor <==> Contains(action, "DELETE") || Contains(action, "KILL")
    ensures c == SuccessColor <==> !c.ErrorColor? && Contains(action, "CREATE")
    ensures c == WarningColor <==> !c.ErrorColor? && !Contains(action, "CREATE") && Contains(action, "UPDATE")
    ensures c == DefaultColor <==>
      !Contains(action, "DELETE") && !Contains(action, "KILL") && !Contains(action, "CREATE") && !Contains(action, "UPDATE")
  {
    if Contains(action, "DELETE") || Contains(action, "KILL") then ErrorColor
    else if Contains(action, "CREATE") then SuccessColor
    else if Contains(action, "UPDATE") then WarningColor
    else DefaultColor
  }

  /** An occurrence at a known position makes `includes` true. */
  lemma OccursContains(s: string, sub: string, i: int)
    requires OccursAt(s, sub, i)
    ensures Contains(s, sub)
  {
    ContainsAt(s, sub);
  }

  /** A word at the end of an action occurs in it. */
  lemma SuffixContained(prefix: string, word: string)
    ensures Contains(prefix + word, word)
  {
    assert (prefix + word)[|prefix|..|prefix| + |word|] == word;
    OccursContains(prefix + word, word, |prefix|);
  }

  /** A pattern whose first letter never appears does not occur. */
  lemma FirstLetterAbsent(s: string, sub: string)
    requires |sub| > 0 && sub[0] !in s
    ensures !Contains(s, sub)
  {
    ContainsAt(s, sub);
  }

  /** Appending text never removes a match: once an action is coloured as
      an error, adding to it keeps it an error. */
  lemma ErrorStaysError(action: string, more: string)
    requires ActionColor(action) == ErrorColor
    ensures ActionColor(action + more) == ErrorColor
  {
    ContainsAt(action, "DELETE");
    ContainsAt(action, "KILL");
    ContainsAt(action + more, "DELETE");
    ContainsAt(action + more, "KILL");
    if Contains(action, "DELETE") {
      var i :| OccursAt(action, "DELETE", i);
      assert OccursAt(action + more, "DELETE", i);
    } else {
      var i :| OccursAt(action, "KILL", i);
      assert OccursAt(action + more, "KILL", i);
    }
  }

  /** Any action ending in KILL, such as PROCESS_KILL, is an error. */
  lemma KillIsError(prefix: string)
    ensures ActionColor(prefix + "KILL") == ErrorColor
  {
    SuffixContained(prefix, "KILL");
  }

  /** An action ending in CREATE, such as USER_CREATE, is a success when
      nothing before it could read as DELETE or KILL. */
  lemma CreateIsSuccess(prefix: string)
    requires 'D' !in prefix && 'K' !in prefix
    ensures ActionColor(prefix + "CREATE") == SuccessColor
  {
    var action := prefix + "CREATE";
    assert 'D' !in action && 'K' !in action;
    FirstLetterAbsent(action, "DELETE");
    FirstLetterAbsent(action, "KILL");
    SuffixContained(prefix, "CREATE");
  }

  /** A deletion outranks a creation in the same action, wherever the
      two occur. */
  lemma DeleteOutranksCreate(before: string, between: string)
    ensures ActionColor(before + "CREATE" + between + "DELETE") == ErrorColor
  {
    SuffixContained(before + "CREATE" + between, "DELETE");
  }

  /** Lower-case words are not matched. */
  lemma LowerCaseIsDefault()
    ensures ActionColor("delete") == DefaultColor
  {
    var a := "delete";
    assert !Contains(a, "DELETE") by {
      FirstLetterAbsent(a, "DELETE");
    }
    assert !Contains(a, "KILL") by {
      FirstLetterAbsent(a, "KILL");
    }
    assert !Contains(a, "CREATE") by {
      FirstLetterAbsent(a, "CREATE");
    }
    assert !Contains(a, "UPDATE") by {
      FirstLetterAbsent(a, "UPDATE");
    }
  }

  /** The screen's state. */
  class AuditLogsPage {
    var logs: seq<AuditEntry>
    var loading: bool
    var error: Option<string>

    constructor()
      ensures logs == [] && loading && error == None
    {
      logs := [];
      loading := true;
      error := None;
    }

    /** `loadLogs()` with the outcome of `AuditLogApi.getAll()`. */
    method LoadLogs(outcome: Result<seq<AuditEntry>, string>)
      modifies this
      ensures !loading
      ensures outcome.Ok? ==> logs == outcome.value && error == None
      ensures outcome.Err? ==> logs == old(logs) && error == Some("Failed to load audit logs")
    {
      match outcome {
        case Ok(data) =>
          logs := data;
          error := None;
        case Err(_) =>
          error := Some("Failed to load audit logs");
      }
      loading := false;
    }
  }

  /** A failed refresh keeps the logs already shown next to the error, and
      the next successful refresh clears the error. */
  method RefreshScenario(first: seq<AuditEntry>, later: seq<AuditEntry>)
    returns (afterFailure: seq<AuditEntry>, failureError: Option<string>, finalError: Option<string>, finalLogs: seq<AuditEntry>)
    ensures afterFailure == first && failureError == Some("Failed to load audit logs")
    ensures finalError == None && finalLogs == later
  {
    var page := new AuditLogsPage();
    page.LoadLogs(Ok(first));
    page.LoadLogs(Err("Network Error"));
    afterFailure, failureError := page.logs, page.error;
    page.LoadLogs(Ok(later));
    finalError, finalLogs := page.error, page.logs;
  }
}

/** `ServiceManagerService` and `ServiceManagerController`: the list of
    systemd services, merged from `systemctl list-units` and
    `systemctl list-unit-files`, and the start/stop/restart/enable/disable
    actions with their audit entries. The two listings arrive as JSON; the
    decoding is a parameter (`decodeUnits`, `decodeUnitFiles`) that either
    gives the records or fails. */
module ServiceManager {
  import opened Wrappers
  import opened Text
  import opened Http
  import C = Commands

  /** An entry of `systemctl list-units -o json`. */
  datatype Unit = Unit(unit: string, description: string, active: string, sub: string)

  /** An entry of `systemctl list-unit-files -o json`. */
  datatype UnitFile = UnitFile(unitFile: string, state: string)

  datatype ActiveStatus = Active | Inactive | Failed | Unknown

  datatype SystemService = SystemService(name: string, description: string, status: ActiveStatus,
    running: bool, enabled: bool)

  // ---------------------------------------------------------------------
  // mapActiveStatus

  function StatusName(st: ActiveStatus): string {
    match st
    case Active => "active"
    case Inactive => "inactive"
    case Failed => "failed"
    case Unknown => "unknown"
  }

  /** `mapActiveStatus(active)`: the three systemd states recognised by
      name, everything else unknown. */
  function MapActiveStatus(active: string): (st: ActiveStatus)
    ensures st == Active <==> active == "active"
    ensures st == Inactive <==> active == "inactive"
    ensures st == Failed <==> active == "failed"
  {
    if active == "active" then Active
    else if active == "inactive" then Inactive
    else if active == "failed" then Failed
    else Unknown
  }

  /** The mapping is the identity on the names of the three known states,
      and mapping a status's own name gives that status back. */
  lemma MapActiveStatusRoundTrip(st: ActiveStatus)
    ensures MapActiveStatus(StatusName(st)) == st
    ensures st != Unknown ==> StatusName(MapActiveStatus(StatusName(st))) == StatusName(st)
  {
  }

  // ---------------------------------------------------------------------
  // getServices

  /** The enablement map after `set(file.unit_file, file.state)` for each
      unit file in order. */
  function EnablementOf(files: seq<UnitFile>): map<string, string> {
    if |files| == 0 then map[]
    else EnablementOf(files[..|files| - 1])[files[|files| - 1].unitFile := files[|files| - 1].state]
  }

  /** The `forEach` that fills the enablement map. */
  method BuildEnablement(files: seq<UnitFile>) returns (m: map<string, string>)
    ensures m == EnablementOf(files)
  {
    m := map[];
    var i := 0;
    while i < |files|
      invariant i <= |files|
      invariant m == EnablementOf(files[..i])
    {
      assert files[..i + 1][..i] == files[..i];
      m := m[files[i].unitFile := files[i].state];
      i := i + 1;
    }
    assert files[..i] == files;
  }

  /** A unit file is in the map exactly when some entry names it. */
  lemma {:induction false} EnablementHasKey(files: seq<UnitFile>, unit: string)
    ensures unit in EnablementOf(files) <==> exists j :: 0 <= j < |files| && files[j].unitFile == unit
  {
    if |files| > 0 {
      var init := files[..|files| - 1];
      EnablementHasKey(init, unit);
      assert forall j :: 0 <= j < |init| ==> init[j] == files[j];
    }
  }

  /** A later duplicate overwrites an earlier one: the state kept is that
      of the last entry naming the unit file. */
  lemma {:induction false} EnablementLastWins(files: seq<UnitFile>, j: nat)
    requires j < |files|
    requires forall k :: j < k < |files| ==> files[k].unitFile != files[j].unitFile
    ensures files[j].unitFile in EnablementOf(files)
    ensures EnablementOf(files)[files[j].unitFile] == files[j].state
  {
    if j < |files| - 1 {
      var init := files[..|files| - 1];
      assert init[j] == files[j];
      EnablementLastWins(init, j);
    }
  }

  /** The record for one unit: the name drops the first ".service", an
      empty description falls back to the name. */
  function ServiceOf(u: Unit, enablement: map<string, string>): (s: SystemService)
    ensures s.running <==> u.sub == "running"
    ensures s.enabled <==> u.unit in enablement && enablement[u.unit] == "enabled"
    ensures s.description == (if u.description == "" then s.name else u.description)
    ensures s.status == MapActiveStatus(u.active)
  {
    var name := ReplaceFirst(u.unit, ".service", "");
    SystemService(name, if u.description == "" then name else u.description, MapActiveStatus(u.active),
      u.sub == "running", u.unit in enablement && enablement[u.unit] == "enabled")
  }

  /** `units.map(...)`: one record per unit, in unit order. */
  function ServicesOf(units: seq<Unit>, enablement: map<string, string>): (r: seq<SystemService>)
    ensures |r| == |units|
    ensures forall i :: 0 <= i < |units| ==> r[i] == ServiceOf(units[i], enablement)
  {
    seq(|units|, i requires 0 <= i < |units| => ServiceOf(units[i], enablement))
  }

  const ListUnitsCommand := "systemctl list-units --type=service --all --no-pager -o json"
  const ListUnitFilesCommand := "systemctl list-unit-files --type=service --no-pager -o json"

  /** `getServices()`: both listings are fetched, then decoded; a failure
      at any step gives the empty list. */
  method GetServices(shell: C.Shell, decodeUnits: string -> Option<seq<Unit>>,
                     decodeUnitFiles: string -> Option<seq<UnitFile>>) returns (r: seq<SystemService>)
    modifies shell
    ensures var units := shell.respond(C.Invocation(ListUnitsCommand, ""));
      units.Failed? ==> shell.history == old(shell.history) + [C.Invocation(ListUnitsCommand, "")] && r == []
    ensures var units := shell.respond(C.Invocation(ListUnitsCommand, ""));
      var files := shell.respond(C.Invocation(ListUnitFilesCommand, ""));
      units.Succeeded? ==>
        && shell.history == old(shell.history) + [C.Invocation(ListUnitsCommand, ""), C.Invocation(ListUnitFilesCommand, "")]
        && (files.Failed? || decodeUnits(units.stdout).None? || decodeUnitFiles(files.stdout).None? ==> r == [])
        && (files.Succeeded? && decodeUnits(units.stdout).Some? && decodeUnitFiles(files.stdout).Some? ==>
          r == ServicesOf(decodeUnits(units.stdout).value, EnablementOf(decodeUnitFiles(files.stdout).value)))
  {
    var unitsJson := shell.Run(ListUnitsCommand);
    if unitsJson.Failed? {
      return [];
    }
    var unitFilesJson := shell.Run(ListUnitFilesCommand);
    if unitFilesJson.Failed? {
      return [];
    }
    var units := decodeUnits(unitsJson.stdout);
    var unitFiles := decodeUnitFiles(unitFilesJson.stdout);
    if units.None? || unitFiles.None? {
      return [];
    }
    var enablement := BuildEnablement(unitFiles.value);
    r := ServicesOf(units.value, enablement);
  }

  /** A listed service is enabled exactly when the last unit-file entry
      for its unit says "enabled". */
  lemma ServiceEnabledIff(units: seq<Unit>, files: seq<UnitFile>, i: nat)
    requires i < |units|
    ensures ServicesOf(units, EnablementOf(files))[i].enabled <==>
      exists j :: 0 <= j < |files| && files[j].unitFile == units[i].unit && files[j].state == "enabled"
        && forall k :: j < k < |files| ==> files[k].unitFile != units[i].unit
  {
    var unit := units[i].unit;
    var m := EnablementOf(files);
    var enabled := ServicesOf(units, m)[i].enabled;
    assert enabled <==> unit in m && m[unit] == "enabled";
    EnablementHasKey(files, unit);
    if enabled {
      var j := LastNaming(files, unit);
      EnablementLastWins(files, j);
      assert files[j].state == "enabled";
    }
    if exists j :: 0 <= j < |files| && files[j].unitFile == unit && files[j].state == "enabled"
        && forall k :: j < k < |files| ==> files[k].unitFile != unit {
      var j :| 0 <= j < |files| && files[j].unitFile == unit && files[j].state == "enabled"
        && forall k :: j < k < |files| ==> files[k].unitFile != unit;
      EnablementLastWins(files, j);
      assert enabled;
    }
  }

  /** The position of the last entry naming `unit`. */
  lemma LastNaming(files: seq<UnitFile>, unit: string) returns (j: nat)
    requires exists j :: 0 <= j < |files| && files[j].unitFile == unit
    ensures j < |files| && files[j].unitFile == unit
    ensures forall k :: j < k < |files| ==> files[k].unitFile != unit
  {
    j := |files| - 1;
    while files[j].unitFile != unit
      invariant 0 <= j < |files|
      invariant forall k :: j < k < |files| ==> files[k].unitFile != unit
      decreases j
    {
      j := j - 1;
    }
  }

  /** A unit `<base>.service` whose base holds no ".service" is listed
      under the name `<base>`. */
  lemma ServiceNameOfUnit(base: string)
    requires !Contains(base, ".service")
    ensures ReplaceFirst(base + ".service", ".service", "") == base
  {
    var s := base + ".service";
    assert OccursAt(s, ".service", |base|);
    forall j | 0 <= j < |base|
      ensures !OccursAt(s, ".service", j)
    {
      NoOccurrenceBefore(base, j);
    }
    FirstOccurrence(s, ".service", |base|);
    assert s[..|base|] == base;
  }

  /** ".service" cannot start inside `base` when `base` does not hold it:
      it would lie inside `base`, or its '.' would have to match one of its
      own later characters. */
  lemma NoOccurrenceBefore(base: string, j: nat)
    requires !Contains(base, ".service") && j < |base|
    ensures !OccursAt(base + ".service", ".service", j)
  {
    var s := base + ".service";
    if j + 8 <= |base| {
      if OccursAt(s, ".service", j) {
        OccurrenceInside(base, ".service", j);
        assert false;
      }
    } else if OccursAt(s, ".service", j) {
      var d := |base| - j;
      assert s[j..j + 8][d] == s[|base|] == '.';
      OnlyLeadingDot(d);
      assert false;
    }
  }

  /** '.' is only the first character of ".service". */
  lemma OnlyLeadingDot(d: nat)
    requires 1 <= d < 8
    ensures ".service"[d] != '.'
  {
  }

  /** An occurrence within the first part of a concatenation is an
      occurrence in that part. */
  lemma OccurrenceInside(a: string, pattern: string, j: nat)
    requires j + |pattern| <= |a| && OccursAt(a + ".service", pattern, j)
    ensures Contains(a, pattern)
  {
    assert a[j..j + |pattern|] == (a + ".service")[j..j + |pattern|];
    assert OccursAt(a, pattern, j);
    ContainsAt(a, pattern);
  }

  /** `indexOf` finds an occurrence with none before it. */
  lemma FirstOccurrence(s: string, pattern: string, k: nat)
    requires OccursAt(s, pattern, k)
    requires forall j :: 0 <= j < k ==> !OccursAt(s, pattern, j)
    ensures IndexOf(s, pattern) == Some(k)
  {
    ContainsAt(s, pattern);
    var i := IndexOf(s, pattern).value;
    assert OccursAt(s, pattern, i);
    assert s[k..][..|pattern|] == s[k..k + |pattern|];
  }

  // ---------------------------------------------------------------------
  // performAction

  datatype AuditEntry = AuditEntry(action: string, target: string, details: string)

  /** The audit-log store. Whether a write is accepted is fixed when the
      store is created (`None` accepted, `Some(message)` the error). */
  class AuditLog {
    var entries: seq<AuditEntry>
    const respond: AuditEntry -> Option<string>

    constructor(respond: AuditEntry -> Option<string>)
      ensures entries == [] && this.respond == respond
    {
      entries := [];
      this.respond := respond;
    }

    /** `createLog(action, target, details)`: an accepted entry is
        appended; a refused one leaves the log as it was. */
    method CreateLog(action: string, target: string, details: string) returns (error: Option<string>)
      modifies this
      ensures error == respond(AuditEntry(action, target, details))
      ensures error.None? ==> entries == old(entries) + [AuditEntry(action, target, details)]
      ensures error.Some? ==> entries == old(entries)
    {
      error := respond(AuditEntry(action, target, details));
      if error.None? {
        entries := entries + [AuditEntry(action, target, details)];
      }
    }
  }

  /** The unit a service name refers to: ".service" is appended unless the
      name already ends with it. */
  function UnitName(name: string): (unit: string)
    ensures EndsWith(unit, ".service")
    ensures EndsWith(name, ".service") ==> unit == name
    ensures !EndsWith(name, ".service") ==> unit == name + ".service"
  {
    if EndsWith(name, ".service") then name
    else
      assert (name + ".service")[|name|..] == ".service";
      name + ".service"
  }

  /** Normalising a name twice changes nothing, and a listed service's
      name leads back to its unit. */
  lemma UnitNameIdempotent(name: string)
    ensures UnitName(UnitName(name)) == UnitName(name)
  {
  }

  lemma UnitNameOfListed(base: string)
    requires !Contains(base, ".service") && !EndsWith(base, ".service")
    ensures UnitName(ReplaceFirst(base + ".service", ".service", "")) == base + ".service"
  {
    ServiceNameOfUnit(base);
  }

  /** The command line of `performAction`: `systemctl` under `sudo`, the
      action as its first argument and the unit (which always ends with
      ".service") after a space, as its last. */
  function ActionCommand(action: string, name: string): (r: string)
    ensures |r| == |SystemctlPrefix| + |action| + 1 + |UnitName(name)|
    ensures r[..|SystemctlPrefix|] == SystemctlPrefix
    ensures r[|SystemctlPrefix|..|SystemctlPrefix| + |action|] == action && r[|SystemctlPrefix| + |action|] == ' '
    ensures r[|r| - |UnitName(name)|..] == UnitName(name)
  {
    var unit := UnitName(name);
    var r := SystemctlPrefix + action + [' '] + unit;
    assert r[..|SystemctlPrefix|] == SystemctlPrefix;
    assert r[|SystemctlPrefix|..|SystemctlPrefix| + |action|] == action;
    assert r[|r| - |unit|..] == unit;
    r
  }

  const SystemctlPrefix := "sudo systemctl "

  /** `performAction(name, action)`: the action runs on the unit; only after
      it succeeds is the audit entry written, and a failure of either step
      is an internal server error naming the action and service. */
  method PerformAction(shell: C.Shell, audit: AuditLog, name: string, action: string) returns (r: Result<string, HttpError>)
    modifies shell, audit
    ensures shell.history == old(shell.history) + [C.Invocation(ActionCommand(action, name), "")]
    ensures var o := shell.respond(C.Invocation(ActionCommand(action, name), ""));
      var entry := AuditEntry("SERVICE_" + ToUpper(action), name, "Service " + name + " " + action + "ed");
      && (o.Failed? ==>
            && audit.entries == old(audit.entries)
            && r == Err(InternalServerError("Failed to " + action + " service " + name + ": " + o.message)))
      && (o.Succeeded? && audit.respond(entry).Some? ==>
            && audit.entries == old(audit.entries)
            && r == Err(InternalServerError("Failed to " + action + " service " + name + ": " + audit.respond(entry).value)))
      && (o.Succeeded? && audit.respond(entry).None? ==>
            && audit.entries == old(audit.entries) + [entry]
            && r == Ok("Service " + name + " " + action + "ed successfully"))
  {
    var o := shell.Run(ActionCommand(action, name));
    if o.Failed? {
      return Err(InternalServerError("Failed to " + action + " service " + name + ": " + o.message));
    }
    var error := audit.CreateLog("SERVICE_" + ToUpper(action), name, "Service " + name + " " + action + "ed");
    if error.Some? {
      return Err(InternalServerError("Failed to " + action + " service " + name + ": " + error.value));
    }
    r := Ok("Service " + name + " " + action + "ed successfully");
  }

  // ---------------------------------------------------------------------
  // ServiceManagerController

  const AllowedActions: seq<string> := ["start", "stop", "restart", "enable", "disable"]

  predicate IsAllowedAction(action: string) {
    action in AllowedActions
  }

  /** The whitelist is exactly the five systemctl verbs. */
  lemma AllowedActionsExactly(action: string)
    ensures IsAllowedAction(action) <==>
      action == "start" || action == "stop" || action == "restart" || action == "enable" || action == "disable"
  {
  }

  /** The controller's `performAction`: any other action is a bad request
      and neither runs a command nor writes to the audit log; an allowed
      one is passed on unchanged. */
  method ControllerPerformAction(shell: C.Shell, audit: AuditLog, name: string, action: string) returns (r: Result<string, HttpError>)
    modifies shell, audit
    ensures !IsAllowedAction(action) ==>
      r == Err(BadRequest("Invalid action")) && shell.history == old(shell.history) && audit.entries == old(audit.entries)
    ensures IsAllowedAction(action) ==> shell.history == old(shell.history) + [C.Invocation(ActionCommand(action, name), "")]
    ensures IsAllowedAction(action) ==>
      var o := shell.respond(C.Invocation(ActionCommand(action, name), ""));
      var entry := AuditEntry("SERVICE_" + ToUpper(action), name, "Service " + name + " " + action + "ed");
      && (o.Failed? ==>
            && audit.entries == old(audit.entries)
            && r == Err(InternalServerError("Failed to " + action + " service " + name + ": " + o.message)))
      && (o.Succeeded? && audit.respond(entry).Some? ==>
            && audit.entries == old(audit.entries)
            && r == Err(InternalServerError("Failed to " + action + " service " + name + ": " + audit.respond(entry).value)))
      && (o.Succeeded? && audit.respond(entry).None? ==>
            && audit.entries == old(audit.entries) + [entry]
            && r == Ok("Service " + name + " " + action + "ed successfully"))
  {
    if !IsAllowedAction(action) {
      return Err(BadRequest("Invalid action"));
    }
    r := PerformAction(shell, audit, name, action);
  }
}

/** The older `SystemMonitorService` (the server's `app` tree). It computes
    the same statistics as the newer service but never throws: a failed
    read gives an error record, a failed command an empty result, and a
    failed kill a `{success: false}` answer. */
module LegacySystemMonitorService {
  import opened Wrappers
  import opened Text
  import opened JsNumbers
  import opened LinuxParser
  import opened Commands
  import Current = SystemMonitorService

  /** The record returned when any required read fails: zero usage, the
      placeholder identifiers and the read's error message. */
  function ErrorRecord(message: string): Current.SystemStats {
    Current.SystemStats(Some(0.0), Finite(0), Finite(0), Finite(0), Some(0.0),
      "Error", "N/A", "System monitoring error", Some(message))
  }

  /** `getSystemStats`: the statistics when every required read succeeds,
      otherwise the error record carrying the first failure's message. */
  function GetSystemStats(rs: Current.Readings): (r: Current.SystemStats)
    ensures r.error.Some? <==> exists k :: 0 <= k < 4 && Current.RequiredReads(rs)[k].Err?
    ensures r.error.Some? ==> r == ErrorRecord(Current.FirstFailure(Current.RequiredReads(rs)).value)
    ensures r.error.None? ==>
      && rs.meminfo.Ok? && rs.stat1.Ok? && rs.stat2.Ok? && rs.uptime.Ok?
      && r == Current.StatsOf(rs.meminfo.value, rs.stat1.value, rs.stat2.value, rs.uptime.value,
        Current.OsReleaseFrom(rs.osRelease))
  {
    match Current.FirstFailure(Current.RequiredReads(rs))
    case Some(message) => ErrorRecord(message)
    case None =>
      assert Current.RequiredReads(rs)[0].Ok? && Current.RequiredReads(rs)[1].Ok?;
      assert Current.RequiredReads(rs)[2].Ok? && Current.RequiredReads(rs)[3].Ok?;
      Current.StatsOf(rs.meminfo.value, rs.stat1.value, rs.stat2.value, rs.uptime.value,
        Current.OsReleaseFrom(rs.osRelease))
  }

  /** The two services agree: where the newer one throws an internal server
      error, the older one returns the error record with the same message,
      and otherwise both return the same statistics. */
  lemma AgreesWithCurrent(rs: Current.Readings)
    ensures Current.GetSystemStats(rs).Ok? ==> GetSystemStats(rs) == Current.GetSystemStats(rs).value
    ensures Current.GetSystemStats(rs).Err? ==>
      GetSystemStats(rs) == ErrorRecord(Current.GetSystemStats(rs).error.message)
  {
  }

  /** `getSystemProcesses`: the listing with raw STAT columns, or no
      processes when the command fails. */
  method GetSystemProcesses(shell: Shell) returns (r: seq<ProcessInfo>)
    modifies shell
    ensures shell.history == old(shell.history) + [Invocation(Current.PsCommand, "")]
    ensures var o := shell.respond(Invocation(Current.PsCommand, ""));
      && (o.Succeeded? ==> r == ParsePsOutputRaw(o.stdout))
      && (o.Failed? ==> r == [])
  {
    var o := shell.Run(Current.PsCommand);
    if o.Succeeded? {
      r := ParsePsOutputRaw(o.stdout);
    } else {
      r := [];
    }
  }

  /** `getStorageData`: the parsed `df` output, or zero totals and no
      partitions when the command fails. */
  method GetStorageData(shell: Shell) returns (r: Storage)
    modifies shell
    ensures shell.history == old(shell.history) + [Invocation(Current.DfCommand, "")]
    ensures var o := shell.respond(Invocation(Current.DfCommand, ""));
      && (o.Succeeded? ==> r == StorageOf(o.stdout))
      && (o.Failed? ==> r == Storage(Finite(0), Finite(0), Finite(0), []))
  {
    var o := shell.Run(Current.DfCommand);
    if o.Succeeded? {
      r := StorageOf(o.stdout);
    } else {
      r := Storage(Finite(0), Finite(0), Finite(0), []);
    }
  }

  datatype KillResult = KillResult(success: bool, message: string)

  /** `killProcess`: the same PID guard as the newer service, with every
      outcome reported as a result record; a failed kill appends the
      command's error message. */
  method KillProcess(shell: Shell, pid: Number) returns (r: KillResult)
    modifies shell
    ensures !Current.ValidPid(pid) ==> r == KillResult(false, "Invalid PID") && shell.history == old(shell.history)
    ensures Current.ValidPid(pid) ==>
      shell.history == old(shell.history) + [Invocation(Current.KillCommand(pid.v), "")]
    ensures r.success <==> Current.ValidPid(pid) && shell.respond(Invocation(Current.KillCommand(pid.v), "")).Succeeded?
    ensures r.success ==> r.message == "Process " + IntToString(pid.v) + " killed successfully"
    ensures Current.ValidPid(pid) && shell.respond(Invocation(Current.KillCommand(pid.v), "")).Failed? ==>
      r.message == "Failed to kill process " + IntToString(pid.v) + ": " +
        shell.respond(Invocation(Current.KillCommand(pid.v), "")).message
  {
    if !Current.ValidPid(pid) {
      return KillResult(false, "Invalid PID");
    }
    var o := shell.Run(Current.KillCommand(pid.v));
    if o.Succeeded? {
      r := KillResult(true, "Process " + IntToString(pid.v) + " killed successfully");
    } else {
      r := KillResult(false, "Failed to kill process " + IntToString(pid.v) + ": " + o.message);
    }
  }
}

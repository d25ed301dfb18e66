/** `SystemMonitorService` of the server's system-monitor module: the CPU
    percentage from two /proc/stat samples, the /etc/os-release scan, the
    statistics record, and the process, storage and kill operations that
    run shell commands. File contents are given as read results (the text,
    or the message the read failed with); commands go through a `Shell`. */
module SystemMonitorService {
  import opened Wrappers
  import opened Text
  import opened JsNumbers
  import opened LineTables
  import opened LinuxParser
  import opened Http
  import opened Commands

  // ---------------------------------------------------------------------
  // CPU percentage

  /** `totalDiff === 0 ? 0 : 100 * (1 - idleDiff / totalDiff)` over the two
      samples; `None` stands for NaN, which a NaN counter produces. */
  function CpuPercent(start: CpuStats, end: CpuStats): (r: Option<real>)
    ensures end.total.Minus(start.total).Is(0) ==> r == Some(0.0)
    ensures var totalDiff := end.total.Minus(start.total); var idleDiff := end.idle.Minus(start.idle);
      totalDiff.Finite? && totalDiff.v != 0 && idleDiff.Finite? ==>
        r.Some? && r.value * totalDiff.v as real == 100.0 * (totalDiff.v - idleDiff.v) as real
    ensures r.None? <==> (!end.total.Minus(start.total).Is(0) &&
      (end.total.Minus(start.total).NaN? || end.idle.Minus(start.idle).NaN?))
  {
    var idleDiff := end.idle.Minus(start.idle);
    var totalDiff := end.total.Minus(start.total);
    if totalDiff.Is(0) then Some(0.0)
    else if totalDiff.NaN? || idleDiff.NaN? then None
    else Some(100.0 * (1.0 - idleDiff.v as real / totalDiff.v as real))
  }

  /** While the idle time grew by no more than the total, and the total
      grew, the percentage lies between 0 and 100. */
  lemma CpuPercentBounds(start: CpuStats, end: CpuStats)
    requires start.total.Finite? && start.idle.Finite? && end.total.Finite? && end.idle.Finite?
    requires 0 <= end.idle.v - start.idle.v <= end.total.v - start.total.v
    ensures CpuPercent(start, end).Some?
    ensures 0.0 <= CpuPercent(start, end).value <= 100.0
  {
    var t := (end.total.v - start.total.v) as real;
    var i := (end.idle.v - start.idle.v) as real;
    if t != 0.0 {
      var r := CpuPercent(start, end).value;
      assert r * t == 100.0 * (t - i);
      assert 0.0 <= 100.0 * (t - i) <= 100.0 * t;
    }
  }

  /** A total that went down is not guarded against: with the idle time
      grown, the result exceeds 100. */
  lemma CpuPercentUnguarded(start: CpuStats, end: CpuStats)
    requires start.total.Finite? && start.idle.Finite? && end.total.Finite? && end.idle.Finite?
    requires end.total.v < start.total.v && end.idle.v > start.idle.v
    ensures CpuPercent(start, end).Some? && CpuPercent(start, end).value > 100.0
  {
    var t := (end.total.v - start.total.v) as real;
    var i := (end.idle.v - start.idle.v) as real;
    var r := CpuPercent(start, end).value;
    assert r * t == 100.0 * (t - i);
  }

  // ---------------------------------------------------------------------
  // /etc/os-release

  /** The distribution's identifiers; the defaults apply to any key no line
      sets. */
  datatype OsRelease = OsRelease(name: string, version: string, prettyName: string)

  const DefaultOsRelease := OsRelease("Linux", "Unknown", "Unknown")

  /** The value of an os-release line: the text between its first and
      second '=' (or to the end), with every '"' removed. */
  function OsValue(line: string): (r: string)
    requires '=' in line
    ensures '"' !in r
  {
    SplitOnSeparated(line, '=');
    RemoveAll(SplitOn(line, '=')[1], '"')
  }

  /** For `KEY=value` with no further '=', the value is `value` unquoted. */
  lemma OsValueOfAssignment(key: string, value: string)
    requires '=' !in key && '=' !in value
    ensures OsValue(key + "=" + value) == RemoveAll(value, '"')
  {
    SplitOnAfterFirst(key, '=', value);
    SplitOnFree(value, '=');
  }

  /** A second '=' cuts the value short: only the text before it is kept. */
  lemma OsValueStopsAtSecondEquals(key: string, value: string, tail: string)
    requires '=' !in key && '=' !in value
    ensures OsValue(key + "=" + value + "=" + tail) == RemoveAll(value, '"')
  {
    assert key + "=" + value + "=" + tail == key + ['='] + (value + ['='] + tail);
    SplitOnAfterFirst(key, '=', value + ['='] + tail);
    SplitOnAfterFirst(value, '=', tail);
  }

  /** The three prefixes the scan looks for; no line has two of them. */
  lemma PrefixesExclusive(line: string)
    ensures !(StartsWith(line, "NAME=") && StartsWith(line, "VERSION="))
    ensures !(StartsWith(line, "NAME=") && StartsWith(line, "ID="))
    ensures !(StartsWith(line, "VERSION=") && StartsWith(line, "ID="))
  {
    if StartsWith(line, "NAME=") {
      assert line[0] == 'N';
    }
    if StartsWith(line, "VERSION=") {
      assert line[0] == 'V';
    }
  }

  /** What a line sets, as a dictionary entry keyed by the os-release
      field: NAME (the pretty name), VERSION or ID (the name). */
  function OsReleaseLine(line: string): (r: LineEffect<string>)
    ensures r.Fail? == false
    ensures r.Entry? && r.key == "NAME" <==> StartsWith(line, "NAME=")
    ensures r.Entry? && r.key == "VERSION" <==> StartsWith(line, "VERSION=")
    ensures r.Entry? && r.key == "ID" <==> StartsWith(line, "ID=")
    ensures r.Entry? ==> '=' in line && r.value == OsValue(line)
  {
    PrefixesExclusive(line);
    if StartsWith(line, "NAME=") then
      assert line[4] == '=';
      Entry("NAME", OsValue(line))
    else if StartsWith(line, "VERSION=") then
      assert line[7] == '=';
      Entry("VERSION", OsValue(line))
    else if StartsWith(line, "ID=") then
      assert line[2] == '=';
      Entry("ID", OsValue(line))
    else Skip
  }

  function OsFields(lines: seq<string>): (t: map<string, string>)
    ensures Table(lines, OsReleaseLine) == Some(t)
  {
    TableFails(lines, OsReleaseLine);
    Table(lines, OsReleaseLine).value
  }

  function Setting(t: map<string, string>, key: string, default: string): string {
    if key in t then t[key] else default
  }

  /** No line of `lines` starts with `prefix`. */
  predicate NoLineStarts(lines: seq<string>, prefix: string) {
    forall i :: 0 <= i < |lines| ==> !StartsWith(lines[i], prefix)
  }

  /** The identifiers after scanning `lines`: an identifier no line sets
      keeps its default, name 'Linux', version and pretty name 'Unknown'. */
  function OsReleaseOf(lines: seq<string>): (r: OsRelease)
    ensures NoLineStarts(lines, "ID=") ==> r.name == "Linux"
    ensures NoLineStarts(lines, "VERSION=") ==> r.version == "Unknown"
    ensures NoLineStarts(lines, "NAME=") ==> r.prettyName == "Unknown"
  {
    var t := OsFields(lines);
    OsFieldSources(lines, "ID");
    OsFieldSources(lines, "VERSION");
    OsFieldSources(lines, "NAME");
    OsRelease(Setting(t, "ID", "Linux"), Setting(t, "VERSION", "Unknown"), Setting(t, "NAME", "Unknown"))
  }

  /** An identifier that some line sets holds the unquoted value of such a
      line. */
  lemma OsReleaseFromLines(lines: seq<string>)
    ensures (exists i :: 0 <= i < |lines| && StartsWith(lines[i], "ID=")) ==>
      exists i :: 0 <= i < |lines| && StartsWith(lines[i], "ID=") && '=' in lines[i] && OsReleaseOf(lines).name == OsValue(lines[i])
    ensures (exists i :: 0 <= i < |lines| && StartsWith(lines[i], "VERSION=")) ==>
      exists i :: 0 <= i < |lines| && StartsWith(lines[i], "VERSION=") && '=' in lines[i] && OsReleaseOf(lines).version == OsValue(lines[i])
    ensures (exists i :: 0 <= i < |lines| && StartsWith(lines[i], "NAME=")) ==>
      exists i :: 0 <= i < |lines| && StartsWith(lines[i], "NAME=") && '=' in lines[i] && OsReleaseOf(lines).prettyName == OsValue(lines[i])
  {
    OsFieldSources(lines, "ID");
    OsFieldSources(lines, "VERSION");
    OsFieldSources(lines, "NAME");
  }

  /** A field is recorded exactly when some line sets it, and then its value
      is that of such a line. */
  lemma OsFieldSources(lines: seq<string>, key: string)
    ensures key !in OsFields(lines) <==>
      forall i :: 0 <= i < |lines| ==> !(OsReleaseLine(lines[i]).Entry? && OsReleaseLine(lines[i]).key == key)
    ensures key in OsFields(lines) ==> exists i :: 0 <= i < |lines| && OsReleaseLine(lines[i]) == Entry(key, OsFields(lines)[key])
  {
    var t := OsFields(lines);
    TableHasKey(lines, OsReleaseLine, key);
    if key in OsFields(lines) {
      TableValueFromLine(lines, OsReleaseLine, key);
    }
  }

  /** The last line with a prefix decides that identifier: later lines
      override earlier ones. */
  lemma OsReleaseLastWins(lines: seq<string>, i: nat)
    requires i < |lines|
    ensures StartsWith(lines[i], "ID=") && (forall j :: i < j < |lines| ==> !StartsWith(lines[j], "ID=")) ==>
      '=' in lines[i] && OsReleaseOf(lines).name == OsValue(lines[i])
    ensures StartsWith(lines[i], "VERSION=") && (forall j :: i < j < |lines| ==> !StartsWith(lines[j], "VERSION=")) ==>
      '=' in lines[i] && OsReleaseOf(lines).version == OsValue(lines[i])
    ensures StartsWith(lines[i], "NAME=") && (forall j :: i < j < |lines| ==> !StartsWith(lines[j], "NAME=")) ==>
      '=' in lines[i] && OsReleaseOf(lines).prettyName == OsValue(lines[i])
  {
    var t := OsFields(lines);
    if OsReleaseLine(lines[i]).Entry? {
      var key := OsReleaseLine(lines[i]).key;
      if forall j :: i < j < |lines| ==> !(OsReleaseLine(lines[j]).Entry? && OsReleaseLine(lines[j]).key == key) {
        TableLastWins(lines, OsReleaseLine, i);
      }
    }
  }

  /** Scanning one more line. */
  lemma OsReleaseStep(lines: seq<string>, i: nat)
    requires i < |lines|
    ensures var before := OsReleaseOf(lines[..i]); var line := lines[i];
      OsReleaseOf(lines[..i + 1]) ==
        if StartsWith(line, "NAME=") then before.(prettyName := OsValue(line))
        else if StartsWith(line, "VERSION=") then before.(version := OsValue(line))
        else if StartsWith(line, "ID=") then before.(name := OsValue(line))
        else before
  {
    assert lines[..i + 1][..i] == lines[..i];
    var t := OsFields(lines[..i]);
    assert OsFields(lines[..i + 1]) == match OsReleaseLine(lines[i]) {
      case Skip => t
      case Entry(k, v) => t[k := v]
      case Fail => t
    };
  }

  /** The scan in `getSystemStats`: the defaults, then every line examined
      against the three prefixes in turn; a file that cannot be read leaves
      the defaults. */
  method ReadOsRelease(file: Result<string, string>) returns (r: OsRelease)
    ensures file.Err? ==> r == DefaultOsRelease
    ensures file.Ok? ==> r == OsReleaseOf(SplitOn(file.value, '\n'))
  {
    var osName := "Linux";
    var osVersion := "Unknown";
    var osDistro := "Unknown";
    if file.Ok? {
      var lines := SplitOn(file.value, '\n');
      var i := 0;
      assert lines[..0] == [];
      while i < |lines|
        invariant i <= |lines|
        invariant OsRelease(osName, osVersion, osDistro) == OsReleaseOf(lines[..i])
      {
        osName, osVersion, osDistro := ScanOsReleaseLine(lines, i, osName, osVersion, osDistro);
        i := i + 1;
      }
      assert lines[..i] == lines;
    }
    r := OsRelease(osName, osVersion, osDistro);
  }

  /** The `forEach` callback: a line starting with NAME=, VERSION= or ID=
      sets the pretty name, the version or the name to its unquoted value,
      which is one more line of the scan. */
  method ScanOsReleaseLine(lines: seq<string>, i: nat, osName: string, osVersion: string, osDistro: string)
    returns (name: string, version: string, distro: string)
    requires i < |lines| && OsRelease(osName, osVersion, osDistro) == OsReleaseOf(lines[..i])
    ensures OsRelease(name, version, distro) == OsReleaseOf(lines[..i + 1])
  {
    name, version, distro := osName, osVersion, osDistro;
    var line := lines[i];
    OsReleaseStep(lines, i);
    PrefixesExclusive(line);
    if StartsWith(line, "NAME=") {
      assert line[4] == '=';
      distro := OsValue(line);
    }
    if StartsWith(line, "VERSION=") {
      assert line[7] == '=';
      version := OsValue(line);
    }
    if StartsWith(line, "ID=") {
      assert line[2] == '=';
      name := OsValue(line);
    }
  }

  function OsReleaseFrom(file: Result<string, string>): OsRelease {
    if file.Ok? then OsReleaseOf(SplitOn(file.value, '\n')) else DefaultOsRelease
  }

  // ---------------------------------------------------------------------
  // getSystemStats

  /** What the files read: /proc/meminfo, /proc/stat twice (half a second
      apart), /proc/uptime and /etc/os-release. */
  datatype Readings = Readings(
    meminfo: Result<string, string>, stat1: Result<string, string>, stat2: Result<string, string>,
    uptime: Result<string, string>, osRelease: Result<string, string>)

  /** The record sent to clients; `None` stands for NaN in `cpu` and
      `uptime`, and `error` is set only by the older service's fallback.
      The timestamp is not modelled. */
  datatype SystemStats = SystemStats(
    cpu: Option<real>, ramTotal: Number, ramUsed: Number, ramFree: Number, uptime: Option<real>,
    osName: string, osVersion: string, osPrettyName: string, error: Option<string>)

  /** The message of the first read that failed, if any. */
  function FirstFailure(results: seq<Result<string, string>>): (r: Option<string>)
    ensures r.None? <==> forall k :: 0 <= k < |results| ==> results[k].Ok?
    ensures r.Some? ==>
      exists k :: 0 <= k < |results| && results[k] == Err(r.value) && (forall j :: 0 <= j < k ==> results[j].Ok?)
  {
    if |results| == 0 then None
    else if results[0].Err? then Some(results[0].error)
    else
      var r := FirstFailure(results[1..]);
      assert forall k :: 1 <= k < |results| ==> results[k] == results[1..][k - 1];
      if r.Some? then
        var k :| 0 <= k < |results[1..]| && results[1..][k] == Err(r.value) && forall j :: 0 <= j < k ==> results[1..][j].Ok?;
        assert results[k + 1] == Err(r.value);
        r
      else r
  }

  /** The results whose failure abandons `getSystemStats`, in order; a
      missing /etc/os-release is not among them. */
  function RequiredReads(rs: Readings): seq<Result<string, string>> {
    [rs.meminfo, rs.stat1, rs.stat2, rs.uptime]
  }

  /** `parseFloat` of the text up to the first space of /proc/uptime; text
      without a space is read whole. */
  function UptimeOf(text: string): (r: Option<real>)
    ensures ' ' !in text ==> r == ParseFloatPrefix(text)
  {
    if ' ' !in text then SplitOnFree(text, ' '); ParseFloatPrefix(SplitOn(text, ' ')[0])
    else ParseFloatPrefix(SplitOn(text, ' ')[0])
  }

  /** /proc/uptime holds "seconds.fraction idle": the uptime is the first
      number, with its fraction, whatever follows the space. */
  lemma UptimeOfReading(seconds: nat, fraction: string, idle: string)
    requires AllDigits(fraction)
    ensures UptimeOf(NatToString(seconds) + ['.'] + fraction + [' '] + idle) == Some(DecimalValue(NatToString(seconds), fraction))
    ensures DecimalValue(NatToString(seconds), fraction) == seconds as real + DigitsValue(fraction) as real / Pow10(|fraction|) as real
  {
    var first := NatToString(seconds) + ['.'] + fraction;
    var text := first + [' '] + idle;
    assert SplitOn(text, ' ')[0] == first by {
      NoSpaceInDecimal(NatToString(seconds), fraction);
      SplitOnAfterFirst(first, ' ', idle);
    }
    assert ' ' in text by {
      assert text[|first|] == ' ';
    }
    assert UptimeOf(text) == ParseFloatPrefix(first);
    assert ParseFloatPrefix(first) == Some(DecimalValue(NatToString(seconds), fraction)) by {
      ParseFloatOfDecimal(NatToString(seconds), fraction);
    }
    assert DecimalValue(NatToString(seconds), fraction)
      == seconds as real + DigitsValue(fraction) as real / Pow10(|fraction|) as real by {
      NatToStringValue(seconds);
    }
  }

  lemma NoSpaceInDecimal(whole: string, fraction: string)
    requires AllDigits(whole) && AllDigits(fraction)
    ensures ' ' !in whole + ['.'] + fraction
  {
    var s := whole + ['.'] + fraction;
    forall i | 0 <= i < |s|
      ensures s[i] != ' '
    {
      if i < |whole| {
        assert s[i] == whole[i];
      } else if i > |whole| {
        assert s[i] == fraction[i - |whole| - 1];
      }
    }
  }

  /** The record built when every required read succeeded. */
  function StatsOf(meminfo: string, stat1: string, stat2: string, uptime: string, os: OsRelease): (r: SystemStats)
    ensures r.ramTotal == MemStatsOf(meminfo).total && r.ramUsed == MemStatsOf(meminfo).used
    ensures r.ramFree == MemStatsOf(meminfo).free
    ensures r.cpu == CpuPercent(CpuStatsOf(stat1), CpuStatsOf(stat2))
    ensures r.uptime == UptimeOf(uptime)
    ensures r.osName == os.name && r.osVersion == os.version && r.osPrettyName == os.prettyName
    ensures r.error.None?
  {
    var ram := MemStatsOf(meminfo);
    SystemStats(CpuPercent(CpuStatsOf(stat1), CpuStatsOf(stat2)), ram.total, ram.used, ram.free,
      UptimeOf(uptime), os.name, os.version, os.prettyName, None)
  }

  /** `getSystemStats`: the record, or an internal server error carrying
      the message of the first read that failed. */
  function GetSystemStats(rs: Readings): (r: Result<SystemStats, HttpError>)
    ensures r.Err? <==> exists k :: 0 <= k < 4 && RequiredReads(rs)[k].Err?
    ensures r.Err? ==> r.error == InternalServerError(FirstFailure(RequiredReads(rs)).value)
    ensures r.Ok? ==> rs.meminfo.Ok? && rs.stat1.Ok? && rs.stat2.Ok? && rs.uptime.Ok? && r.value == StatsOf(rs.meminfo.value, rs.stat1.value, rs.stat2.value, rs.uptime.value,
      OsReleaseFrom(rs.osRelease))
  {
    match FirstFailure(RequiredReads(rs))
    case Some(message) => Err(InternalServerError(message))
    case None =>
      assert RequiredReads(rs)[0].Ok? && RequiredReads(rs)[1].Ok? && RequiredReads(rs)[2].Ok? && RequiredReads(rs)[3].Ok?;
      Ok(StatsOf(rs.meminfo.value, rs.stat1.value, rs.stat2.value, rs.uptime.value, OsReleaseFrom(rs.osRelease)))
  }

  /** The record reports MemFree as `ram_free`, not the available memory:
      the two differ whenever MemAvailable is present, non-zero and not
      equal to MemFree. */
  lemma RamFreeIsMemFree(rs: Readings)
    requires GetSystemStats(rs).Ok?
    ensures GetSystemStats(rs).value.ramFree == Get(MemTable(SplitOn(rs.meminfo.value, '\n')), "MemFree")
    ensures var t := MemTable(SplitOn(rs.meminfo.value, '\n'));
      !Get(t, "MemAvailable").Is(0) && Get(t, "MemAvailable") != Get(t, "MemFree") ==>
        GetSystemStats(rs).value.ramFree != MemStatsOf(rs.meminfo.value).available
  {
  }

  // ---------------------------------------------------------------------
  // Processes, storage and kill

  const PsCommand := "ps aux --sort=-%cpu | head -n 51"
  const DfCommand := "df -B1 --output=source,size,used,avail,pcent,target -x tmpfs -x devtmpfs"

  /** The command line that kills `pid`. */
  function KillCommand(pid: int): string {
    "kill -9 " + IntToString(pid)
  }

  /** `getSystemProcesses`: the parsed listing of the (trimmed) output, or
      an internal server error when the command fails. */
  method GetSystemProcesses(shell: Shell) returns (r: Result<seq<ProcessInfo>, HttpError>)
    modifies shell
    ensures shell.history == old(shell.history) + [Invocation(PsCommand, "")]
    ensures var o := shell.respond(Invocation(PsCommand, ""));
      && (o.Succeeded? ==> r == Ok(ParsePsOutput(Trim(o.stdout))))
      && (o.Failed? ==> r == Err(InternalServerError("Failed to retrieve processes")))
  {
    var o := shell.Run(PsCommand);
    if o.Succeeded? {
      r := Ok(ParsePsOutput(Trim(o.stdout)));
    } else {
      r := Err(InternalServerError("Failed to retrieve processes"));
    }
  }

  /** `getStorageData`: the parsed `df` output, or an internal server
      error when the command fails. */
  method GetStorageData(shell: Shell) returns (r: Result<Storage, HttpError>)
    modifies shell
    ensures shell.history == old(shell.history) + [Invocation(DfCommand, "")]
    ensures var o := shell.respond(Invocation(DfCommand, ""));
      && (o.Succeeded? ==> r == Ok(StorageOf(Trim(o.stdout))))
      && (o.Failed? ==> r == Err(InternalServerError("Failed to retrieve storage data")))
  {
    var o := shell.Run(DfCommand);
    if o.Succeeded? {
      r := Ok(StorageOf(Trim(o.stdout)));
    } else {
      r := Err(InternalServerError("Failed to retrieve storage data"));
    }
  }

  /** The PID guard `!pid || isNaN(pid)`: NaN and 0 are rejected, every
      other integer (negative ones included) is accepted. */
  predicate ValidPid(pid: Number)
    ensures ValidPid(pid) <==> pid.Finite? && pid.v != 0
  {
    !(!pid.Truthy() || pid.NaN?)
  }

  /** `killProcess`: an invalid PID is a bad request and runs nothing;
      otherwise `kill -9 <pid>` runs once, and its failure is an internal
      server error naming the PID. */
  method KillProcess(shell: Shell, pid: Number) returns (r: Result<string, HttpError>)
    modifies shell
    ensures !ValidPid(pid) ==> r == Err(BadRequest("Invalid PID")) && shell.history == old(shell.history)
    ensures ValidPid(pid) ==> shell.history == old(shell.history) + [Invocation(KillCommand(pid.v), "")]
    ensures ValidPid(pid) && shell.respond(Invocation(KillCommand(pid.v), "")).Succeeded? ==>
      r == Ok("Process " + IntToString(pid.v) + " killed successfully")
    ensures ValidPid(pid) && shell.respond(Invocation(KillCommand(pid.v), "")).Failed? ==>
      r == Err(InternalServerError("Failed to kill process " + IntToString(pid.v)))
  {
    if !ValidPid(pid) {
      return Err(BadRequest("Invalid PID"));
    }
    var o := shell.Run(KillCommand(pid.v));
    if o.Succeeded? {
      r := Ok("Process " + IntToString(pid.v) + " killed successfully");
    } else {
      r := Err(InternalServerError("Failed to kill process " + IntToString(pid.v)));
    }
  }

  /** The PID reaches the command line unchanged: the number read back from
      the command's argument is the PID. */
  lemma KillCommandNamesPid(pid: int)
    ensures |KillCommand(pid)| > 8 && KillCommand(pid)[..8] == "kill -9 "
    ensures ParseIntStrict(KillCommand(pid)[8..]) == Some(pid)
  {
    IntToStringRoundTrip(pid);
    assert KillCommand(pid)[8..] == IntToString(pid);
  }
}

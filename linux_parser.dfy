/** `LinuxParser`, the server's parsers for the text of /proc/meminfo,
    /proc/stat, `df` and `ps aux`. The two copies of the class in the
    repository are identical except for how a `ps` STAT column becomes a
    status: the newer one maps its first letter to a status name, the older
    one keeps the column as it is. Both are modelled here, by one parser
    that takes the status rule as a parameter. */
module LinuxParser {
  import opened Wrappers
  import opened Text
  import opened Lists
  import opened JsNumbers
  import opened LineTables

  // ---------------------------------------------------------------------
  // parseMemInfo

  /** The only keys `parseMemInfo` records. */
  const MemKeys: set<string> := {"MemTotal", "MemFree", "MemAvailable", "Buffers", "Cached"}

  /** What one /proc/meminfo line sets: with at least two whitespace-split
      parts, the first part with its first ':' removed names the variable
      and `parseInt` of the second part, in kB, gives its value in bytes;
      lines naming any other key change nothing. */
  function MemInfoLine(line: string): (r: LineEffect<Number>)
    ensures !r.Fail?
    ensures |SplitWs(line)| < 2 ==> r.Skip?
    ensures r.Entry? ==> r.key in MemKeys && r.key == ReplaceFirst(SplitWs(line)[0], ":", "")
    ensures r.Entry? ==> r.value == ParseInt(SplitWs(line)[1]).Times(1024)
  {
    var parts := SplitWs(line);
    if |parts| < 2 then Skip
    else
      var key := ReplaceFirst(parts[0], ":", "");
      if key in MemKeys then Entry(key, ParseInt(parts[1]).Times(1024)) else Skip
  }

  /** The five variables after the scan, keyed by their meminfo names. */
  function MemTable(lines: seq<string>): (t: map<string, Number>)
    ensures Table(lines, MemInfoLine) == Some(t)
  {
    TableFails(lines, MemInfoLine);
    Table(lines, MemInfoLine).value
  }

  /** The table only ever holds the five known keys. */
  lemma {:induction false} MemTableKeys(lines: seq<string>)
    ensures MemTable(lines).Keys <= MemKeys
  {
    if |lines| > 0 {
      MemTableKeys(lines[..|lines| - 1]);
    }
  }

  /** A variable's value: the last line that set it, or its initial 0. */
  function Get(t: map<string, Number>, key: string): Number {
    if key in t then t[key] else Finite(0)
  }

  datatype MemStats = MemStats(total: Number, used: Number, free: Number, available: Number)

  /** `parseMemInfo(data)`: when MemAvailable is 0 (or missing, or never
      set), it is estimated as MemFree + Buffers + Cached; used is total
      minus available; `free` is MemFree itself. */
  function MemStatsOf(data: string): (r: MemStats)
    ensures var t := MemTable(SplitOn(data, '\n'));
      && r.total == Get(t, "MemTotal")
      && r.free == Get(t, "MemFree")
      && (Get(t, "MemAvailable").Is(0) ==> r.available == Get(t, "MemFree").Plus(Get(t, "Buffers")).Plus(Get(t, "Cached")))
      && (!Get(t, "MemAvailable").Is(0) ==> r.available == Get(t, "MemAvailable"))
      && r.used == r.total.Minus(r.available)
  {
    var t := MemTable(SplitOn(data, '\n'));
    var available :=
      if Get(t, "MemAvailable").Is(0) then Get(t, "MemFree").Plus(Get(t, "Buffers")).Plus(Get(t, "Cached"))
      else Get(t, "MemAvailable");
    MemStats(Get(t, "MemTotal"), Get(t, "MemTotal").Minus(available), Get(t, "MemFree"), available)
  }

  /** One more line updates at most the variable it names. */
  lemma MemTableStep(lines: seq<string>, i: nat)
    requires i < |lines|
    ensures MemInfoLine(lines[i]).Entry? ==>
      MemTable(lines[..i + 1]) == MemTable(lines[..i])[MemInfoLine(lines[i]).key := MemInfoLine(lines[i]).value]
    ensures !MemInfoLine(lines[i]).Entry? ==> MemTable(lines[..i + 1]) == MemTable(lines[..i])
  {
    TableStep(lines, MemInfoLine, i);
    assert Table(lines[..i], MemInfoLine) == Some(MemTable(lines[..i]));
    assert Table(lines[..i + 1], MemInfoLine) == Some(MemTable(lines[..i + 1]));
  }

  /** `parseMemInfo`: the `forEach` over the lines reassigning five
      variables, one per recognised key. */
  method ParseMemInfo(data: string) returns (r: MemStats)
    ensures r == MemStatsOf(data)
  {
    var lines := SplitOn(data, '\n');
    var total, free, available, buffers, cached := Finite(0), Finite(0), Finite(0), Finite(0), Finite(0);
    var i := 0;
    while i < |lines|
      invariant 0 <= i <= |lines|
      invariant total == Get(MemTable(lines[..i]), "MemTotal")
      invariant free == Get(MemTable(lines[..i]), "MemFree")
      invariant available == Get(MemTable(lines[..i]), "MemAvailable")
      invariant buffers == Get(MemTable(lines[..i]), "Buffers")
      invariant cached == Get(MemTable(lines[..i]), "Cached")
    {
      MemTableStep(lines, i);
      match MemInfoLine(lines[i]) {
        case Entry(key, value) =>
          if key == "MemTotal" {
            total := value;
          } else if key == "MemFree" {
            free := value;
          } else if key == "MemAvailable" {
            available := value;
          } else if key == "Buffers" {
            buffers := value;
          } else {
            cached := value;
          }
        case _ =>
      }
      i := i + 1;
    }
    assert lines[..i] == lines;
    if available.Is(0) {
      available := free.Plus(buffers).Plus(cached);
    }
    r := MemStats(total, total.Minus(available), free, available);
  }

  // ---------------------------------------------------------------------
  // parseCpuStats

  datatype CpuStats = CpuStats(total: Number, idle: Number)

  /** The aggregate line of /proc/stat. */
  predicate IsCpuLine(line: string) {
    StartsWith(line, "cpu ")
  }

  /** The numbers after the label: `line.split(/\s+/).slice(1).map(parseInt)`. */
  function Stats(line: string): (r: seq<Number>)
    ensures |r| == |SplitWs(line)| - 1
  {
    var parts := SplitWs(line);
    seq(|parts| - 1, k requires 0 <= k < |parts| - 1 => ParseInt(parts[k + 1]))
  }

  /** `parseCpuStats(data)`: from the first line starting with "cpu ", the
      sum of every number after the label and idle + iowait (the fourth and
      fifth); {0, 0} when there is no such line. */
  function CpuStatsOf(data: string): (r: CpuStats)
    ensures FirstIndex(SplitOn(data, '\n'), IsCpuLine).None? ==> r == CpuStats(Finite(0), Finite(0))
    ensures FirstIndex(SplitOn(data, '\n'), IsCpuLine).Some? ==>
      var stats := Stats(SplitOn(data, '\n')[FirstIndex(SplitOn(data, '\n'), IsCpuLine).value]);
      r == CpuStats(NumSum(stats), At(stats, 3).Plus(At(stats, 4)))
  {
    var lines := SplitOn(data, '\n');
    match FirstIndex(lines, IsCpuLine)
    case None => CpuStats(Finite(0), Finite(0))
    case Some(i) =>
      var stats := Stats(lines[i]);
      CpuStats(NumSum(stats), At(stats, 3).Plus(At(stats, 4)))
  }

  /** With every number readable and at least idle and iowait present, the
      total is the integer sum of the counters and idle is idle + iowait; a
      single unreadable number makes the total NaN. */
  lemma CpuStatsValues(stats: seq<Number>)
    ensures AllFinite(stats) ==> NumSum(stats) == Finite(Sum(Values(stats)))
    ensures !AllFinite(stats) ==> NumSum(stats) == NaN
    ensures AllFinite(stats) && |stats| >= 5 ==>
      At(stats, 3).Plus(At(stats, 4)) == Finite(Values(stats)[3] + Values(stats)[4])
    ensures |stats| < 5 ==> At(stats, 3).Plus(At(stats, 4)) == NaN
  {
    NumSumSpec(stats);
  }

  // ---------------------------------------------------------------------
  // parseDfOutput and parsePsOutput share their line handling

  /** The lines after the header: `data.trim().split('\n').slice(1)`. */
  function DataLines(data: string): seq<string> {
    SplitOn(Trim(data), '\n')[1..]
  }

  /** One `df` row: source, size, used, the use percentage and the mount
      point. The byte counts are kept as numbers; their rendering as
      "x.y GB" strings is not modelled. */
  datatype Partition = Partition(name: string, mountPoint: string, usePercent: Number, size: Number, used: Number)

  /** A `df` row with at least six whitespace-separated tokens becomes a
      partition: the mount point is every token from the sixth on joined by
      single spaces, and the percentage loses its first '%'. */
  function DfLine(line: string): (r: Option<Partition>)
    ensures r.None? <==> |Fields(line)| < 6
    ensures r.Some? ==> r.value.name == Fields(line)[0] && r.value.mountPoint == Join(Fields(line)[5..], " ")
    ensures r.Some? ==> r.value.size == ParseInt(Fields(line)[1]) && r.value.used == ParseInt(Fields(line)[2])
    ensures r.Some? ==> r.value.usePercent == ParseInt(ReplaceFirst(Fields(line)[4], "%", ""))
  {
    var parts := Fields(line);
    if |parts| < 6 then None
    else
      Some(Partition(parts[0], Join(parts[5..], " "), ParseInt(ReplaceFirst(parts[4], "%", "")),
        ParseInt(parts[1]), ParseInt(parts[2])))
  }

  function Sizes(ps: seq<Partition>): seq<Number> {
    seq(|ps|, k requires 0 <= k < |ps| => ps[k].size)
  }

  function Useds(ps: seq<Partition>): seq<Number> {
    seq(|ps|, k requires 0 <= k < |ps| => ps[k].used)
  }

  /** The storage summary in bytes (its conversion to rounded gigabytes is
      not modelled): free is total minus used. */
  datatype Storage = Storage(totalBytes: Number, usedBytes: Number, freeBytes: Number, partitions: seq<Partition>)

  /** `parseDfOutput(data)`: one partition per accepted row, in order, and
      the byte totals summed over those rows. */
  function StorageOf(data: string): (r: Storage)
    ensures r.partitions == Collect(DataLines(data), DfLine)
    ensures r.totalBytes == NumSum(Sizes(r.partitions)) && r.usedBytes == NumSum(Useds(r.partitions))
    ensures r.freeBytes == r.totalBytes.Minus(r.usedBytes)
  {
    var partitions := Collect(DataLines(data), DfLine);
    var total := NumSum(Sizes(partitions));
    var used := NumSum(Useds(partitions));
    Storage(total, used, total.Minus(used), partitions)
  }

  /** The header is never a partition, rows with fewer than six tokens are
      skipped, and every other row gives exactly one partition, in order. */
  lemma DfOnePartitionPerRow(data: string)
    ensures |StorageOf(data).partitions| == |Filter(DataLines(data), DfAccepted)|
    ensures forall k :: 0 <= k < |StorageOf(data).partitions| ==>
      DfLine(Filter(DataLines(data), DfAccepted)[k]) == Some(StorageOf(data).partitions[k])
  {
    var lines := DataLines(data);
    assert StorageOf(data).partitions == Collect(lines, DfLine);
    CollectIsFilter(lines, DfLine);
    forall k | 0 <= k < |lines|
      ensures Produces(DfLine)(lines[k]) == DfAccepted(lines[k])
    {
      DfAcceptedIff(lines[k]);
    }
    FilterAgreeing(lines, Produces(DfLine), DfAccepted);
  }

  predicate DfAccepted(line: string) {
    |Fields(line)| >= 6
  }

  lemma DfAcceptedIff(line: string)
    ensures DfLine(line).Some? <==> DfAccepted(line)
  {
  }

  lemma SumsStep(partitions: seq<Partition>, p: Partition)
    ensures NumSum(Sizes(partitions + [p])) == NumSum(Sizes(partitions)).Plus(p.size)
    ensures NumSum(Useds(partitions + [p])) == NumSum(Useds(partitions)).Plus(p.used)
  {
    assert Sizes(partitions + [p])[..|partitions|] == Sizes(partitions);
    assert Useds(partitions + [p])[..|partitions|] == Useds(partitions);
  }

  /** One row of the `forEach`: an accepted row adds its partition and its
      byte counts, any other row changes nothing. */
  lemma DfStep(lines: seq<string>, i: nat, rowOf: string -> Option<Partition>)
    requires i < |lines|
    ensures var before := Collect(lines[..i], rowOf); var after := Collect(lines[..i + 1], rowOf);
      var entry := rowOf(lines[i]);
      && (entry.None? ==> after == before)
      && (entry.Some? ==>
            && after == before + [entry.value]
            && NumSum(Sizes(after)) == NumSum(Sizes(before)).Plus(entry.value.size)
            && NumSum(Useds(after)) == NumSum(Useds(before)).Plus(entry.value.used))
  {
    CollectStep(lines, i, rowOf);
    var entry := rowOf(lines[i]);
    if entry.Some? {
      SumsStep(Collect(lines[..i], rowOf), entry.value);
    }
  }

  /** `parseDfOutput`: the `forEach` accumulating the two sums and pushing
      one partition per accepted row. */
  method ParseDfOutput(data: string) returns (r: Storage)
    ensures r == StorageOf(data)
  {
    var dataLines := DataLines(data);
    var totalBytes, usedBytes, partitions := ScanDfRows(dataLines, DfLine);
    r := Storage(totalBytes, usedBytes, totalBytes.Minus(usedBytes), partitions);
  }

  /** The loop of `parseDfOutput` over the data rows, `rowOf` reading one
      row (`DfLine`). */
  method ScanDfRows(dataLines: seq<string>, rowOf: string -> Option<Partition>)
    returns (totalBytes: Number, usedBytes: Number, partitions: seq<Partition>)
    ensures partitions == Collect(dataLines, rowOf)
    ensures totalBytes == NumSum(Sizes(partitions)) && usedBytes == NumSum(Useds(partitions))
  {
    totalBytes := Finite(0);
    usedBytes := Finite(0);
    partitions := [];
    var i := 0;
    while i < |dataLines|
      invariant 0 <= i <= |dataLines|
      invariant partitions == Collect(dataLines[..i], rowOf)
      invariant totalBytes == NumSum(Sizes(partitions)) && usedBytes == NumSum(Useds(partitions))
    {
      DfStep(dataLines, i, rowOf);
      var entry := rowOf(dataLines[i]);
      if entry.Some? {
        var p := entry.value;
        totalBytes := totalBytes.Plus(p.size);
        usedBytes := usedBytes.Plus(p.used);
        partitions := partitions + [p];
      }
      i := i + 1;
    }
    assert dataLines[..i] == dataLines;
  }

  // ---------------------------------------------------------------------
  // parsePsOutput

  /** One process as the dashboard lists it. `%CPU` and `%MEM` are floating
      point and not modelled; memory is kept as the RSS column in kB. */
  datatype ProcessInfo = ProcessInfo(pid: Number, name: string, user: string, status: string, rssKb: Number)

  /** `str.substring(0, n)`. */
  function Truncate(s: string, n: nat): (r: string)
    ensures |r| <= n && StartsWith(s, r)
    ensures |s| <= n ==> r == s
    ensures |s| > n ==> |r| == n
  {
    if |s| <= n then s else s[..n]
  }

  /** The status names of the newer parser. */
  const StatusNames: set<string> := {"running", "sleeping", "disk-sleep", "stopped", "zombie", "idle", "unknown"}

  /** The newer parser's status: the STAT column's first letter,
      upper-cased, read as a process state code. */
  function StatusOfStat(stat: string): (r: string)
    ensures r in StatusNames
    ensures stat == "" ==> r == "unknown"
    ensures stat != "" && UpperChar(stat[0]) == 'R' ==> r == "running"
    ensures stat != "" && UpperChar(stat[0]) == 'S' ==> r == "sleeping"
    ensures stat != "" && UpperChar(stat[0]) == 'D' ==> r == "disk-sleep"
    ensures stat != "" && UpperChar(stat[0]) == 'T' ==> r == "stopped"
    ensures stat != "" && UpperChar(stat[0]) == 'Z' ==> r == "zombie"
    ensures stat != "" && UpperChar(stat[0]) == 'I' ==> r == "idle"
    ensures r == "unknown" <==> stat == "" || UpperChar(stat[0]) !in {'R', 'S', 'D', 'T', 'Z', 'I'}
  {
    if stat == "" then "unknown"
    else
      match UpperChar(stat[0])
      case 'R' => "running"
      case 'S' => "sleeping"
      case 'D' => "disk-sleep"
      case 'T' => "stopped"
      case 'Z' => "zombie"
      case 'I' => "idle"
      case _ => "unknown"
  }

  /** The older parser's status: the STAT column as it is. */
  function RawStat(stat: string): (r: string)
    ensures r == stat
  {
    stat
  }

  /** A `ps aux` row with at least eleven tokens becomes a process: user,
      pid, RSS and STAT from their columns, the name from the command (every
      token from the eleventh on, joined by spaces) cut to 50 characters. */
  function PsLine(line: string, statusOf: string -> string): (r: Option<ProcessInfo>)
    ensures r.None? <==> |Fields(line)| < 11
    ensures r.Some? ==>
      && r.value.user == Fields(line)[0]
      && r.value.pid == ParseInt(Fields(line)[1])
      && r.value.rssKb == ParseInt(Fields(line)[5])
      && r.value.status == statusOf(Fields(line)[7])
      && r.value.name == Truncate(Join(Fields(line)[10..], " "), 50)
  {
    var parts := Fields(line);
    if |parts| < 11 then None
    else
      Some(ProcessInfo(ParseInt(parts[1]), Truncate(Join(parts[10..], " "), 50), parts[0], statusOf(parts[7]),
        ParseInt(parts[5])))
  }

  function PsRow(statusOf: string -> string): string -> Option<ProcessInfo> {
    line => PsLine(line, statusOf)
  }

  /** `parsePsOutput(data)` with the given status rule: the rows after the
      header, mapped, with the short ones dropped. */
  function ParsePs(data: string, statusOf: string -> string): seq<ProcessInfo> {
    Collect(DataLines(data), PsRow(statusOf))
  }

  predicate PsAccepted(line: string) {
    |Fields(line)| >= 11
  }

  /** One process per row after the header that has at least eleven tokens,
      in input order; every name has at most 50 characters. */
  lemma PsOneProcessPerRow(data: string, statusOf: string -> string)
    ensures |ParsePs(data, statusOf)| == |Filter(DataLines(data), PsAccepted)|
    ensures forall k :: 0 <= k < |ParsePs(data, statusOf)| ==>
      PsLine(Filter(DataLines(data), PsAccepted)[k], statusOf) == Some(ParsePs(data, statusOf)[k])
    ensures forall k :: 0 <= k < |ParsePs(data, statusOf)| ==> |ParsePs(data, statusOf)[k].name| <= 50
  {
    var lines := DataLines(data);
    CollectIsFilter(lines, PsRow(statusOf));
    FilterAgreeing(lines, Produces(PsRow(statusOf)), PsAccepted);
    var kept := Filter(lines, PsAccepted);
    forall k | 0 <= k < |ParsePs(data, statusOf)|
      ensures |ParsePs(data, statusOf)[k].name| <= 50
    {
      assert PsLine(kept[k], statusOf) == Some(ParsePs(data, statusOf)[k]);
    }
  }

  /** The newer `parsePsOutput`: one process per accepted row, in input
      order, with the STAT column mapped to one of the seven names. */
  function ParsePsOutput(data: string): (r: seq<ProcessInfo>)
    ensures |r| == |Filter(DataLines(data), PsAccepted)|
    ensures forall k :: 0 <= k < |r| ==> PsLine(Filter(DataLines(data), PsAccepted)[k], StatusOfStat) == Some(r[k])
    ensures forall k :: 0 <= k < |r| ==> r[k].status in StatusNames && |r[k].name| <= 50
  {
    PsOneProcessPerRow(data, StatusOfStat);
    PsStatusesMapped(data);
    ParsePs(data, StatusOfStat)
  }

  /** The older `parsePsOutput`: one process per accepted row, in input
      order, with the STAT column passed through. */
  function ParsePsOutputRaw(data: string): (r: seq<ProcessInfo>)
    ensures |r| == |Filter(DataLines(data), PsAccepted)|
    ensures forall k :: 0 <= k < |r| ==> PsLine(Filter(DataLines(data), PsAccepted)[k], RawStat) == Some(r[k])
    ensures forall k :: 0 <= k < |r| ==> r[k].status == Fields(Filter(DataLines(data), PsAccepted)[k])[7]
  {
    PsOneProcessPerRow(data, RawStat);
    PsStatusesRaw(data);
    ParsePs(data, RawStat)
  }

  /** With the newer status rule, the statuses are always one of the seven
      names. */
  lemma PsStatusesMapped(data: string)
    ensures forall k :: 0 <= k < |ParsePs(data, StatusOfStat)| ==> ParsePs(data, StatusOfStat)[k].status in StatusNames
  {
    PsOneProcessPerRow(data, StatusOfStat);
    var kept := Filter(DataLines(data), PsAccepted);
    forall k | 0 <= k < |ParsePs(data, StatusOfStat)|
      ensures ParsePs(data, StatusOfStat)[k].status in StatusNames
    {
      assert PsLine(kept[k], StatusOfStat) == Some(ParsePs(data, StatusOfStat)[k]);
    }
  }

  /** With the older status rule, the STAT column passes through unchanged. */
  lemma PsStatusesRaw(data: string)
    ensures |ParsePs(data, RawStat)| == |Filter(DataLines(data), PsAccepted)|
    ensures forall k :: 0 <= k < |ParsePs(data, RawStat)| ==>
      ParsePs(data, RawStat)[k].status == Fields(Filter(DataLines(data), PsAccepted)[k])[7]
  {
    PsOneProcessPerRow(data, RawStat);
    var kept := Filter(DataLines(data), PsAccepted);
    forall k | 0 <= k < |ParsePs(data, RawStat)|
      ensures ParsePs(data, RawStat)[k].status == Fields(kept[k])[7]
    {
      assert PsLine(kept[k], RawStat) == Some(ParsePs(data, RawStat)[k]);
    }
  }
}

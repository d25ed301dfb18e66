/** The Python collector script: it turns the text of /proc/stat,
    /proc/meminfo, /proc/uptime and /etc/os-release into a CPU percentage,
    byte counts, an uptime in whole seconds and three OS strings. Each file
    is a parameter holding its text, or `None` when it cannot be read; every
    exception the script catches becomes its documented fallback value. */
module MonitorScript {
  import opened Wrappers
  import opened Text
  import opened Lists
  import opened LineTables

  /** The lines a Python `for line in f` loop visits, without their
      terminators (every parser here strips or splits them away). */
  function Lines(content: string): (r: seq<string>)
    ensures |r| >= 1
  {
    SplitOn(content, '\n')
  }

  /** What `f.readline()` returns, without the terminator. */
  function FirstLine(content: string): string {
    Lines(content)[0]
  }

  // ---------------------------------------------------------------------
  // get_cpu_usage

  /** One reading of the first /proc/stat line: the total of the seven
      counters and the idle time (idle + iowait). */
  datatype CpuSample = CpuSample(total: int, idle: int)

  /** Counter `k` (1..7) of a whitespace-split /proc/stat line: `int(fields[k])`;
      counters 5 to 7 (iowait, irq, softirq) are 0 when the line is too
      short, counters 1 to 4 fail then. */
  function Counter(fields: seq<string>, k: nat): Option<int> {
    if k < |fields| then ParseIntStrict(fields[k])
    else if k <= 4 then None
    else Some(0)
  }

  /** The seven counters user, nice, system, idle, iowait, irq, softirq. */
  function Counters(fields: seq<string>): (r: seq<Option<int>>)
    ensures |r| == 7
  {
    [Counter(fields, 1), Counter(fields, 2), Counter(fields, 3), Counter(fields, 4),
     Counter(fields, 5), Counter(fields, 6), Counter(fields, 7)]
  }

  /** The sample a /proc/stat line gives, or `None` when one of the seven
      counters cannot be read: the total is the sum of all seven and the
      idle time is idle + iowait. */
  function Sample(fields: seq<string>): (r: Option<CpuSample>)
    ensures r.Some? <==> forall k :: 0 <= k < 7 ==> Counters(fields)[k].Some?
  {
    var c := Counters(fields);
    if forall k :: 0 <= k < 7 ==> c[k].Some? then
      Some(CpuSample(c[0].value + c[1].value + c[2].value + c[3].value + c[4].value + c[5].value + c[6].value,
        c[3].value + c[4].value))
    else None
  }

  /** With counters that are not negative, as the kernel's are, the idle
      time of a sample never exceeds its total. */
  lemma SampleIdleWithinTotal(fields: seq<string>)
    requires Sample(fields).Some?
    requires forall k :: 0 <= k < 7 ==> Counters(fields)[k].value >= 0
    ensures 0 <= Sample(fields).value.idle <= Sample(fields).value.total
  {
  }

  /** A line with only the four mandatory counters: iowait, irq and softirq
      count as 0, so the total is the sum of the four and idle is idle. */
  lemma ShortLineDefaults(fields: seq<string>)
    requires |fields| == 5 && Sample(fields).Some?
    ensures Sample(fields).value.total
      == Counters(fields)[0].value + Counters(fields)[1].value + Counters(fields)[2].value + Counters(fields)[3].value
    ensures Sample(fields).value.idle == Counters(fields)[3].value
  {
    var c := Counters(fields);
    assert c[4] == Some(0) && c[5] == Some(0) && c[6] == Some(0);
  }

  /** The usage between two samples: the busy share of the elapsed time, as
      a percentage, or 0 when no time elapsed (rounding to two decimals is
      not modelled). */
  function Usage(first: CpuSample, second: CpuSample): (r: real)
    ensures second.total - first.total <= 0 ==> r == 0.0
    ensures second.total - first.total > 0 ==>
      r * (second.total - first.total) as real == 100.0 * ((second.total - first.total) - (second.idle - first.idle)) as real
    ensures 0 <= second.idle - first.idle <= second.total - first.total ==> 0.0 <= r <= 100.0
  {
    var totalDiff := second.total - first.total;
    var idleDiff := second.idle - first.idle;
    if totalDiff > 0 then
      UsageBounds(totalDiff, idleDiff);
      ((totalDiff - idleDiff) as real / totalDiff as real) * 100.0
    else 0.0
  }

  lemma UsageBounds(totalDiff: int, idleDiff: int)
    requires totalDiff > 0
    ensures 0 <= idleDiff <= totalDiff ==>
      0.0 <= ((totalDiff - idleDiff) as real / totalDiff as real) * 100.0 <= 100.0
  {
    if 0 <= idleDiff <= totalDiff {
      var q := (totalDiff - idleDiff) as real / totalDiff as real;
      assert q * totalDiff as real == (totalDiff - idleDiff) as real;
      assert 0.0 <= q <= 1.0;
    }
  }

  /** Whether the first token of the first /proc/stat line is `cpu` (an
      empty line raises, which also ends in 0.0). */
  predicate StartsWithCpu(stat: string) {
    var fields := Words(FirstLine(stat));
    |fields| > 0 && fields[0] == "cpu"
  }

  /** `get_cpu_usage()` with the two readings of /proc/stat as parameters.
      Only the first reading is checked for the `cpu` label. */
  function CpuUsage(stat1: Option<string>, stat2: Option<string>): (r: real)
    ensures stat1.None? || !StartsWithCpu(stat1.value) ==> r == 0.0
    ensures stat2.None? ==> r == 0.0
    ensures stat1.Some? && StartsWithCpu(stat1.value) && stat2.Some?
         && Sample(Words(FirstLine(stat1.value))).Some? && Sample(Words(FirstLine(stat2.value))).Some?
         ==> r == Usage(Sample(Words(FirstLine(stat1.value))).value, Sample(Words(FirstLine(stat2.value))).value)
    ensures stat1.Some? && StartsWithCpu(stat1.value)
         && (Sample(Words(FirstLine(stat1.value))).None? || (stat2.Some? && Sample(Words(FirstLine(stat2.value))).None?))
         ==> r == 0.0
  {
    if stat1.None? || !StartsWithCpu(stat1.value) then 0.0
    else
      match Sample(Words(FirstLine(stat1.value)))
      case None => 0.0
      case Some(s1) =>
        if stat2.None? then 0.0
        else
          match Sample(Words(FirstLine(stat2.value)))
          case None => 0.0
          case Some(s2) => Usage(s1, s2)
  }

  // ---------------------------------------------------------------------
  // get_memory_info

  /** One meminfo line: skipped unless it splits into exactly two parts on
      ':'; then the key is the stripped left part and the value the first
      word of the right part as a Python int, and a missing word or a bad
      number raises. */
  function MemLine(line: string): (r: LineEffect<int>)
    ensures |SplitOn(line, ':')| != 2 <==> r.Skip?
  {
    var parts := SplitOn(line, ':');
    if |parts| != 2 then Skip
    else
      var words := Words(parts[1]);
      if |words| == 0 then Fail
      else
        match ParseIntStrict(words[0])
        case None => Fail
        case Some(v) => Entry(Trim(parts[0]), v)
  }

  /** What a two-part line gives: an entry exactly when the right part has
      a first word that Python's `int` reads, holding the stripped left part
      and that number; otherwise the line raises. */
  lemma MemLineReads(line: string)
    ensures var parts := SplitOn(line, ':');
      MemLine(line).Fail? <==> |parts| == 2 && (|Words(parts[1])| == 0 || ParseIntStrict(Words(parts[1])[0]).None?)
    ensures var parts := SplitOn(line, ':');
      MemLine(line).Entry? ==>
        && |parts| == 2 && |Words(parts[1])| > 0
        && MemLine(line).key == Trim(parts[0]) && Some(MemLine(line).value) == ParseIntStrict(Words(parts[1])[0])
  {
  }

  /** A line as the kernel writes it, a key, ':', padding, a number and
      its unit, gives the trimmed key and the number. */
  lemma MemLineOfRendered(key: string, n: nat, unit: string)
    requires ':' !in key && ':' !in unit
    requires unit == "" || IsSpace(unit[0])
    ensures MemLine(key + ": " + NatToString(n) + unit) == Entry(Trim(key), n)
  {
    RenderedParts(key, n, unit);
    PaddedNumberWords(NatToString(n), unit);
    ParseRendered(n);
  }

  /** The rendered line splits on ':' into the key and the padded number. */
  lemma RenderedParts(key: string, n: nat, unit: string)
    requires ':' !in key && ':' !in unit
    ensures SplitOn(key + ": " + NatToString(n) + unit, ':') == [key, " " + (NatToString(n) + unit)]
  {
    var value := " " + (NatToString(n) + unit);
    assert key + ": " + NatToString(n) + unit == key + [':'] + value;
    PaddedNumberFree(n, unit, ':');
    SplitOnAfterFirst(key, ':', value);
    SplitOnFree(value, ':');
  }

  /** Padding, digits and a unit: the first word is the digits. */
  lemma PaddedNumberWords(digits: string, unit: string)
    requires |digits| >= 1 && AllDigits(digits)
    requires unit == "" || IsSpace(unit[0])
    ensures |Words(" " + (digits + unit))| > 0 && Words(" " + (digits + unit))[0] == digits
  {
    WordsSkipSpace(digits + unit);
    DigitsNoSpace(digits);
    FirstWord(digits, unit);
  }

  lemma DigitsNoSpace(digits: string)
    requires AllDigits(digits)
    ensures forall i :: 0 <= i < |digits| ==> !IsSpace(digits[i])
  {
    forall i | 0 <= i < |digits|
      ensures !IsSpace(digits[i])
    {
      assert IsDigit(digits[i]);
    }
  }

  /** A leading space does not change the words. */
  lemma WordsSkipSpace(s: string)
    ensures Words(" " + s) == Words(s)
  {
    assert (" " + s)[1..] == s;
    assert TrimStart(" " + s) == TrimStart(s);
  }

  /** Python's `int` reads a rendered number back. */
  lemma ParseRendered(n: nat)
    ensures ParseIntStrict(NatToString(n)) == Some(n)
  {
    var digits := NatToString(n);
    DigitsUntrimmed(digits);
    assert SignSplit(digits) == (false, digits) by {
      assert IsDigit(digits[0]);
    }
    NatToStringValue(n);
  }

  /** The dictionary `get_memory_info()` builds, or `None` when a line raised. */
  function MemTable(lines: seq<string>): Option<map<string, int>> {
    Table(lines, MemLine)
  }

  /** The three memory figures, in bytes. */
  datatype MemoryReport = MemoryReport(ramTotal: int, ramUsed: int, ramFree: int)

  function KiB(t: map<string, int>, key: string): int {
    if key in t then t[key] * 1024 else 0
  }

  /** `get_memory_info()` as a function of the file text: MemTotal and
      MemAvailable in bytes (0 when missing), used as their difference, all
      zero when the file cannot be read or a line raises. */
  function MemoryReportOf(meminfo: Option<string>): (r: MemoryReport)
    ensures meminfo.None? ==> r == MemoryReport(0, 0, 0)
    ensures meminfo.Some? && MemTable(Lines(meminfo.value)).None? ==> r == MemoryReport(0, 0, 0)
    ensures meminfo.Some? && MemTable(Lines(meminfo.value)).Some? ==>
      var t := MemTable(Lines(meminfo.value)).value;
      r.ramTotal == KiB(t, "MemTotal") && r.ramFree == KiB(t, "MemAvailable")
    ensures r.ramUsed == r.ramTotal - r.ramFree
  {
    match meminfo
    case None => MemoryReport(0, 0, 0)
    case Some(text) =>
      match MemTable(Lines(text))
      case None => MemoryReport(0, 0, 0)
      case Some(t) =>
        var total := KiB(t, "MemTotal");
        var available := KiB(t, "MemAvailable");
        MemoryReport(total, total - available, available)
  }

  /** A missing key counts as 0 kB. */
  lemma MemoryMissingKeys(text: string)
    requires MemTable(Lines(text)).Some?
    ensures "MemTotal" !in MemTable(Lines(text)).value ==> MemoryReportOf(Some(text)).ramTotal == 0
    ensures "MemAvailable" !in MemTable(Lines(text)).value ==> MemoryReportOf(Some(text)).ramFree == 0
    ensures "MemTotal" in MemTable(Lines(text)).value ==>
      MemoryReportOf(Some(text)).ramTotal == MemTable(Lines(text)).value["MemTotal"] * 1024
    ensures "MemAvailable" in MemTable(Lines(text)).value ==>
      MemoryReportOf(Some(text)).ramFree == MemTable(Lines(text)).value["MemAvailable"] * 1024
  {
  }

  /** A meminfo whose two lines give MemTotal and MemAvailable. */
  lemma MemoryReportOfEntries(text: string, first: string, second: string, total: int, available: int)
    requires Lines(text) == [first, second]
    requires MemLine(first) == Entry("MemTotal", total)
    requires MemLine(second) == Entry("MemAvailable", available)
    ensures MemoryReportOf(Some(text)) == MemoryReport(total * 1024, (total - available) * 1024, available * 1024)
  {
    var t := map["MemTotal" := total]["MemAvailable" := available];
    MemTableOfTwo(text, first, second, total, available);
    KiBOfTwo(total, available);
    MemoryReportOfTable(text, t);
  }

  /** The usual two-line meminfo: MemTotal 1000 kB and MemAvailable
      400 kB give 1024000 bytes in all, 614400 used and 409600 free. */
  lemma MemoryReportExample()
    ensures MemoryReportOf(Some("MemTotal: 1000 kB\nMemAvailable: 400 kB")) == MemoryReport(1024000, 614400, 409600)
  {
    var first := "MemTotal: 1000 kB";
    var second := "MemAvailable: 400 kB";
    ExampleRendering();
    ExampleKeys();
    ExampleKeysTrimmed();
    MemLineOfRendered("MemTotal", 1000, " kB");
    MemLineOfRendered("MemAvailable", 400, " kB");
    ExampleLines();
    MemoryReportOfEntries("MemTotal: 1000 kB\nMemAvailable: 400 kB", first, second, 1000, 400);
  }

  lemma ExampleRendering()
    ensures "MemTotal: 1000 kB" == "MemTotal" + ": " + NatToString(1000) + " kB"
    ensures "MemAvailable: 400 kB" == "MemAvailable" + ": " + NatToString(400) + " kB"
  {
    assert NatToString(1000) == "1000" by {
      assert NatToString(10) == "10";
      assert NatToString(100) == "100";
    }
    assert NatToString(400) == "400" by {
      assert NatToString(40) == "40";
    }
  }

  lemma ExampleKeys()
    ensures ':' !in "MemTotal" && ':' !in "MemAvailable" && ':' !in " kB" && IsSpace(" kB"[0])
  {
  }

  lemma ExampleKeysTrimmed()
    ensures Trim("MemTotal") == "MemTotal" && Trim("MemAvailable") == "MemAvailable"
  {
    assert Trim("MemTotal") == "MemTotal" by {
      TrimmedKey("MemTotal");
    }
    assert Trim("MemAvailable") == "MemAvailable" by {
      TrimmedKey("MemAvailable");
    }
  }

  lemma ExampleLines()
    ensures Lines("MemTotal: 1000 kB\nMemAvailable: 400 kB") == ["MemTotal: 1000 kB", "MemAvailable: 400 kB"]
  {
    var first := "MemTotal: 1000 kB";
    var second := "MemAvailable: 400 kB";
    assert '\n' !in first && '\n' !in second;
    assert "MemTotal: 1000 kB\nMemAvailable: 400 kB" == first + "\n" + second;
    TwoLines(first, second);
  }

  lemma MemTableOfTwo(text: string, first: string, second: string, total: int, available: int)
    requires Lines(text) == [first, second]
    requires MemLine(first) == Entry("MemTotal", total)
    requires MemLine(second) == Entry("MemAvailable", available)
    ensures MemTable(Lines(text)) == Some(map["MemTotal" := total]["MemAvailable" := available])
  {
    TableOfTwo(first, second, MemLine);
  }

  lemma KiBOfTwo(total: int, available: int)
    ensures var t := map["MemTotal" := total]["MemAvailable" := available];
      KiB(t, "MemTotal") == total * 1024 && KiB(t, "MemAvailable") == available * 1024
  {
    assert |"MemTotal"| != |"MemAvailable"|;
  }

  lemma MemoryReportOfTable(text: string, t: map<string, int>)
    requires MemTable(Lines(text)) == Some(t)
    ensures MemoryReportOf(Some(text)) == MemoryReport(KiB(t, "MemTotal"), KiB(t, "MemTotal") - KiB(t, "MemAvailable"), KiB(t, "MemAvailable"))
  {
  }

  /** A key without surrounding whitespace is its own `strip()`. */
  lemma TrimmedKey(key: string)
    requires key != "" && !IsSpace(key[0]) && !IsSpace(key[|key| - 1])
    ensures Trim(key) == key
  {
    assert TrimStart(key) == key;
  }

  /** Two lines joined by a newline are read as those two lines. */
  lemma TwoLines(first: string, second: string)
    requires '\n' !in first && '\n' !in second
    ensures Lines(first + "\n" + second) == [first, second]
  {
    assert first + "\n" + second == first + ['\n'] + second;
    SplitOnAfterFirst(first, '\n', second);
    SplitOnFree(second, '\n');
  }

  /** The table of two lines that both give an entry. */
  lemma TableOfTwo<V>(first: string, second: string, effect: string -> LineEffect<V>)
    requires effect(first).Entry? && effect(second).Entry?
    ensures Table([first, second], effect)
      == Some(map[effect(first).key := effect(first).value][effect(second).key := effect(second).value])
  {
    TableOfOne(first, effect);
    assert [first, second][..1] == [first];
  }

  /** A character other than a digit and a space that the unit does not
      hold is not in a padded number. */
  lemma PaddedNumberFree(n: nat, unit: string, c: char)
    requires c !in unit && c != ' ' && !IsDigit(c)
    ensures c !in " " + (NatToString(n) + unit)
  {
    var digits := NatToString(n);
    var value := " " + (digits + unit);
    forall i | 0 <= i < |value|
      ensures value[i] != c
    {
      if 1 <= i <= |digits| {
        assert value[i] == digits[i - 1];
      } else if i > |digits| {
        assert value[i] == unit[i - |digits| - 1];
      }
    }
  }

  /** `get_memory_info()`: the `for line in f` loop filling the dictionary. */
  method GetMemoryInfo(meminfo: Option<string>) returns (r: MemoryReport)
    ensures r == MemoryReportOf(meminfo)
  {
    if meminfo.None? {
      return MemoryReport(0, 0, 0);
    }
    var lines := Lines(meminfo.value);
    var memInfo: map<string, int> := map[];
    var i := 0;
    while i < |lines|
      invariant 0 <= i <= |lines|
      invariant Table(lines[..i], MemLine) == Some(memInfo)
    {
      TableStep(lines, MemLine, i);
      var parts := SplitOn(lines[i], ':');
      if |parts| == 2 {
        var key := Trim(parts[0]);
        var words := Words(parts[1]);
        if |words| == 0 {
          assert MemLine(lines[i]) == Fail;
          TablePrefixFails(lines, MemLine, i + 1);
          return MemoryReport(0, 0, 0);
        }
        var value := ParseIntStrict(words[0]);
        if value.None? {
          assert MemLine(lines[i]) == Fail;
          TablePrefixFails(lines, MemLine, i + 1);
          return MemoryReport(0, 0, 0);
        }
        assert MemLine(lines[i]) == Entry(key, value.value);
        memInfo := memInfo[key := value.value];
      } else {
        assert MemLine(lines[i]) == Skip;
      }
      i := i + 1;
    }
    assert lines[..i] == lines;
    var total := KiB(memInfo, "MemTotal");
    var available := KiB(memInfo, "MemAvailable");
    return MemoryReport(total, total - available, available);
  }

  // ---------------------------------------------------------------------
  // get_uptime

  /** `get_uptime()`: the first word of /proc/uptime read as a float and
      truncated toward zero; 0 on any failure. */
  function Uptime(uptime: Option<string>): (r: int)
    ensures uptime.None? ==> r == 0
    ensures uptime.Some? && (|Words(uptime.value)| == 0 || ParseDecimalTruncated(Words(uptime.value)[0]).None?) ==> r == 0
    ensures uptime.Some? && |Words(uptime.value)| > 0 && ParseDecimalTruncated(Words(uptime.value)[0]).Some? ==>
      r == ParseDecimalTruncated(Words(uptime.value)[0]).value
  {
    match uptime
    case None => 0
    case Some(text) =>
      var words := Words(text);
      if |words| == 0 then 0 else ParseDecimalTruncated(words[0]).GetOr(0)
  }

  /** Readable but malformed text, empty or not a number, gives 0. */
  lemma UptimeMalformed()
    ensures Uptime(Some("")) == 0
    ensures Uptime(Some("abc")) == 0
  {
    UptimeOfLetterWord("abc");
  }

  /** A single word that starts with a letter is no uptime. */
  lemma UptimeOfLetterWord(w: string)
    requires w != "" && (IsLowerLetter(w[0]) || IsUpperLetter(w[0]))
    requires forall i :: 0 <= i < |w| ==> !IsSpace(w[i])
    ensures Uptime(Some(w)) == 0
  {
    WordsOfToken(w);
    LetterWordNotANumber(w);
  }

  /** A word that starts with a letter is no decimal numeral. */
  lemma LetterWordNotANumber(w: string)
    requires w != "" && (IsLowerLetter(w[0]) || IsUpperLetter(w[0]))
    requires forall i :: 0 <= i < |w| ==> !IsSpace(w[i])
    ensures ParseDecimalTruncated(w).None?
  {
    assert TrimStart(w) == w;
    RenderedTrimEnd(w);
    assert SignSplit(w) == (false, w);
    assert DigitPrefix(w) == "";
    assert w[0..] == w;
  }

  /** The usual /proc/uptime text, seconds with a fraction followed by more
      text, gives the whole seconds. */
  lemma UptimeWholeSeconds(n: nat, fraction: string, rest: string)
    requires AllDigits(fraction)
    requires rest == "" || IsSpace(rest[0])
    ensures Uptime(Some(NatToString(n) + "." + fraction + rest)) == n
  {
    var digits := NatToString(n);
    var tok := digits + "." + fraction;
    RenderedNoSpace(digits, fraction);
    FirstWord(tok, rest);
    RenderedTruncates(digits, fraction);
    NatToStringValue(n);
  }

  lemma RenderedNoSpace(digits: string, fraction: string)
    requires AllDigits(digits) && AllDigits(fraction)
    ensures forall i :: 0 <= i < |digits + "." + fraction| ==> !IsSpace((digits + "." + fraction)[i])
  {
    var tok := digits + "." + fraction;
    forall i | 0 <= i < |tok|
      ensures !IsSpace(tok[i])
    {
      if i < |digits| {
        assert tok[i] == digits[i];
        assert IsDigit(tok[i]);
      } else if i > |digits| {
        assert tok[i] == fraction[i - |digits| - 1];
        assert IsDigit(tok[i]);
      } else {
        assert tok[i] == '.';
      }
    }
  }

  /** Digits, a '.' and more digits read as the whole part. */
  lemma RenderedTruncates(digits: string, fraction: string)
    requires |digits| >= 1 && AllDigits(digits) && AllDigits(fraction)
    ensures ParseDecimalTruncated(digits + "." + fraction) == Some(DigitsValue(digits))
  {
    var tail := "." + fraction;
    var tok := digits + tail;
    assert tok[|digits|..] == tail;
    assert tok == digits + "." + fraction;
    RenderedNoSpace(digits, fraction);
    assert !IsSpace(tok[0]);
    assert TrimStart(tok) == tok;
    RenderedTrimEnd(tok);
    assert Trim(tok) == tok;
    assert tok[0] == digits[0] && IsDigit(tok[0]);
    assert SignSplit(tok) == (false, tok);
    DigitPrefixBeforeDot(digits, fraction);
    WholeAndFraction(tok, digits, fraction);
  }

  /** A trimmed, unsigned token made of a digit run, a '.' and digits reads
      as the digit run. */
  lemma WholeAndFraction(tok: string, whole: string, fraction: string)
    requires Trim(tok) == tok && SignSplit(tok) == (false, tok)
    requires whole != "" && DigitPrefix(tok) == whole
    requires tok[|whole|..] == "." + fraction && AllDigits(fraction)
    ensures ParseDecimalTruncated(tok) == Some(DigitsValue(whole))
  {
    var rest := tok[|whole|..];
    assert rest[0] == '.';
    assert rest[1..] == fraction;
  }

  lemma RenderedTrimEnd(tok: string)
    requires forall i :: 0 <= i < |tok| ==> !IsSpace(tok[i])
    ensures TrimEnd(tok) == tok
  {
    if |tok| > 0 {
      assert !IsSpace(tok[|tok| - 1]);
    }
  }

  lemma {:induction false} DigitPrefixBeforeDot(digits: string, fraction: string)
    requires AllDigits(digits)
    ensures DigitPrefix(digits + "." + fraction) == digits
  {
    if |digits| > 0 {
      assert (digits + "." + fraction)[1..] == digits[1..] + "." + fraction;
      DigitPrefixBeforeDot(digits[1..], fraction);
    } else {
      assert (digits + "." + fraction)[0] == '.';
    }
  }

  // ---------------------------------------------------------------------
  // get_os_info

  /** One os-release line: when it contains '=', the stripped line split at
      its first '=', with every leading and trailing '"' removed from the
      value. */
  function OsLine(line: string): (r: LineEffect<string>)
    ensures r.Skip? <==> '=' !in line
    ensures !r.Fail?
    ensures r.Entry? ==> '=' !in r.key && (|r.value| == 0 || (r.value[0] != '"' && r.value[|r.value| - 1] != '"'))
    ensures r.Entry? ==>
      var t := Trim(line);
      && |r.key| < |t| && t[..|r.key|] == r.key && t[|r.key|] == '='
      && r.value == StripChar(t[|r.key| + 1..], '"')
  {
    if '=' in line then
      TrimKeepsNonSpace(line, '=');
      var (key, value) := SplitFirst(Trim(line), '=');
      Entry(key, StripChar(value, '"'))
    else Skip
  }

  /** The dictionary `get_os_info()` builds; no line raises. */
  function OsTable(lines: seq<string>): (r: map<string, string>)
    ensures Table(lines, OsLine) == Some(r)
  {
    TableFails(lines, OsLine);
    Table(lines, OsLine).value
  }

  /** The three OS strings of the report. */
  datatype OsInfo = OsInfo(name: string, version: string, prettyName: string)

  function Lookup(t: map<string, string>, key: string, default: string): string {
    if key in t then t[key] else default
  }

  /** `get_os_info()` as a function of the file text: NAME, VERSION_ID and
      PRETTY_NAME, each independently 'Unknown' when absent. */
  function OsInfoOf(osRelease: Option<string>): (r: OsInfo)
    ensures osRelease.None? ==> r == OsInfo("Unknown", "Unknown", "Unknown")
    ensures osRelease.Some? ==>
      var t := OsTable(Lines(osRelease.value));
      && ("NAME" !in t ==> r.name == "Unknown")
      && ("VERSION_ID" !in t ==> r.version == "Unknown")
      && ("PRETTY_NAME" !in t ==> r.prettyName == "Unknown")
      && ("NAME" in t ==> r.name == t["NAME"])
      && ("VERSION_ID" in t ==> r.version == t["VERSION_ID"])
      && ("PRETTY_NAME" in t ==> r.prettyName == t["PRETTY_NAME"])
  {
    match osRelease
    case None => OsInfo("Unknown", "Unknown", "Unknown")
    case Some(text) =>
      var t := OsTable(Lines(text));
      OsInfo(Lookup(t, "NAME", "Unknown"), Lookup(t, "VERSION_ID", "Unknown"), Lookup(t, "PRETTY_NAME", "Unknown"))
  }

  /** An assignment with a quoted value, as os-release writes them, gives
      the key and the unquoted value. */
  lemma OsLineOfQuoted(key: string, v: string)
    requires key != "" && !IsSpace(key[0]) && '=' !in key
    requires v == "" || (v[0] != '"' && v[|v| - 1] != '"')
    ensures OsLine(Quoted(key, v)) == Entry(key, v)
  {
    QuotedTrimmed(key, v);
    OsLineOfSplit(Quoted(key, v), key, ['"'] + v + ['"']);
    StripQuotes(v);
  }

  /** A stripped line that is a key free of '=', '=' and the rest. */
  lemma OsLineOfSplit(line: string, key: string, rest: string)
    requires Trim(line) == line && line == key + ['='] + rest && '=' !in key
    ensures OsLine(line) == Entry(key, StripChar(rest, '"'))
  {
    assert line[|key|] == '=';
    SplitFirstAt(key, '=', rest);
  }

  /** `key="v"`. */
  function Quoted(key: string, v: string): string {
    key + ['='] + (['"'] + v + ['"'])
  }

  lemma QuotedTrimmed(key: string, v: string)
    requires key != "" && !IsSpace(key[0])
    ensures Trim(Quoted(key, v)) == Quoted(key, v)
  {
    var line := Quoted(key, v);
    assert line[0] == key[0];
    assert TrimStart(line) == line;
    assert line[|line| - 1] == '"';
  }

  /** `strip('"')` removes the quotes around a value that has none at its
      ends. */
  lemma StripQuotes(v: string)
    requires v == "" || (v[0] != '"' && v[|v| - 1] != '"')
    ensures StripChar(['"'] + v + ['"'], '"') == v
  {
    var s := ['"'] + v + ['"'];
    var t := v + ['"'];
    assert s[0] == '"' && s[1..] == t;
    assert StripChar(s, '"') == StripChar(t, '"');
    if v == "" {
      assert t == ['"'] && t[1..] == "";
      assert StripChar(t, '"') == StripChar("", '"');
    } else {
      assert t[0] != '"' && t[|t| - 1] == '"' && t[..|t| - 1] == v;
      assert StripChar(t, '"') == StripChar(v, '"');
    }
  }

  /** A file holding only a quoted NAME names the system and leaves the
      version and the pretty name 'Unknown'. */
  lemma OsInfoOfNameOnly(v: string)
    requires '\n' !in v
    requires v == "" || (v[0] != '"' && v[|v| - 1] != '"')
    ensures OsInfoOf(Some(Quoted("NAME", v))) == OsInfo(v, "Unknown", "Unknown")
  {
    var line := Quoted("NAME", v);
    QuotedFree("NAME", v, '\n');
    SplitOnFree(line, '\n');
    OsLineOfQuoted("NAME", v);
    TableOfOne(line, OsLine);
  }
  /** An os-release holding only NAME="Ubuntu" names Ubuntu, with version
      and pretty name unknown. */
  lemma OsInfoExample()
    ensures OsInfoOf(Some("NAME=\"Ubuntu\"")) == OsInfo("Ubuntu", "Unknown", "Unknown")
  {
    assert "NAME=\"Ubuntu\"" == Quoted("NAME", "Ubuntu");
    assert '\n' !in "Ubuntu";
    OsInfoOfNameOnly("Ubuntu");
  }


  /** A character other than '=' and '"' that neither the key nor the value
      holds is not in the assignment. */
  lemma QuotedFree(key: string, v: string, c: char)
    requires c !in key && c !in v && c != '=' && c != '"'
    ensures c !in Quoted(key, v)
  {
    assert c !in ['"'] + v + ['"'];
  }

  /** The table of one line that gives an entry. */
  lemma TableOfOne<V>(line: string, effect: string -> LineEffect<V>)
    requires effect(line).Entry?
    ensures Table([line], effect) == Some(map[effect(line).key := effect(line).value])
  {
    assert [line][..0] == [];
  }

  /** `get_os_info()`: the `for line in f` loop filling the dictionary. */
  method GetOsInfo(osRelease: Option<string>) returns (r: OsInfo)
    ensures r == OsInfoOf(osRelease)
  {
    if osRelease.None? {
      return OsInfo("Unknown", "Unknown", "Unknown");
    }
    var lines := Lines(osRelease.value);
    var osInfo: map<string, string> := map[];
    var i := 0;
    while i < |lines|
      invariant 0 <= i <= |lines|
      invariant Table(lines[..i], OsLine) == Some(osInfo)
    {
      TableStep(lines, OsLine, i);
      var line := lines[i];
      if '=' in line {
        TrimKeepsNonSpace(line, '=');
        var (key, value) := SplitFirst(Trim(line), '=');
        assert OsLine(line) == Entry(key, StripChar(value, '"'));
        osInfo := osInfo[key := StripChar(value, '"')];
      } else {
        assert OsLine(line) == Skip;
      }
      i := i + 1;
    }
    assert lines[..i] == lines;
    r := OsInfo(Lookup(osInfo, "NAME", "Unknown"), Lookup(osInfo, "VERSION_ID", "Unknown"),
      Lookup(osInfo, "PRETTY_NAME", "Unknown"));
  }
}

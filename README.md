# OpenLinuxManager, modelled in Dafny

OpenLinuxManager is a web dashboard for administering a Linux host. It has three parts:

- a NestJS server, which reads `/proc`, runs `ps`, `df`, `systemctl`, `useradd` and the like, and pushes statistics over a socket;
- a React client, which shows and filters what the server sends;
- a Python collector script.

This project models the logic that sits between those I/O edges, and proves what it promises.

- **Text parsers.**
  - The collector's readings of `/proc/stat`, `/proc/meminfo`, `/proc/uptime` and `/etc/os-release` (`monitor_script.dfy`, over the line-by-line table of `line_tables.dfy`).
  - The server's `LinuxParser` for meminfo, the `cpu ` line, `df` and `ps aux`, in both its copies (`linux_parser.dfy`).
- **Server services.**
  - Both `SystemMonitorService` versions: the CPU delta, the os-release scan, the statistics record, processes, storage and the kill guard.
  - Both `UserManagementService` versions: the `/etc/passwd` listing, user creation with rollback, and deletion.
  - The users controller's search and pagination, and the user-name validator.
  - The systemd service manager and its controller's action whitelist.
  - The terminal session table.
  - The reference-counted start and stop of monitoring in the collector service and in both socket gateways.
- **The response envelope.** The server wraps results and derives errors; the client unwraps them (`envelope.dfy`).
- **Client logic.**
  - Process status decoding, and the search over processes and services.
  - The processes screen's selection, batches and confirm dialog.
  - The generic data table's sort and selection, and the two process tables.
  - The bounded stat histories and the uptime texts of the dashboards.
  - The snackbar, settings and theme state holders, and the audit-log screen.

How the model is built:

- **The environment is made of parameters.** Examples: the text of a file or the message its read failed with; the outcome of every shell command (`commands.dfy`, a `Shell` whose response function is fixed when it is created and which records every command it runs); a JSON decoder; whether a pseudo-terminal's resize or kill throws.
- **Contracts hold for every outcome.** Because the environment is a parameter, each contract covers every outcome, not just the happy path.
- **Stateful parts are classes.** The session map, the subscriber counters, the React state holders and the page state are classes whose methods state their whole new state. Scenario methods run them through the sequences the source allows.
- **JavaScript values are written out explicitly:**
  - a `parseInt` result is an integer or NaN (`numbers.dfy`);
  - a JSON value keeps `undefined` apart from `null`;
  - `%` on negative numbers keeps the sign of the dividend.

Where the two copies of a file are identical (the two axios clients, the two parsers apart from their `ps` status rule), one definition models both. The other copy is cited next to it.

## Model

| member | source | states |
|---|---|---|
| LineTables.TableFails | apps/server/src/scripts/monitor_system.py:69-74 | a dictionary-filling loop fails (the whole call falls back) exactly when some line raises |
| LineTables.TableHasKey | apps/server/src/scripts/monitor_system.py:69-74 | after a successful scan a key is present exactly when some line gives an entry for it |
| LineTables.TableLastWins | apps/server/src/scripts/monitor_system.py:74 | a key holds the value of the last line that gives it: a later duplicate overwrites an earlier one |
| LineTables.TablePrefixFails | apps/server/src/scripts/monitor_system.py:69-74 | once a line raises, the lines after it cannot rescue the scan |
| MonitorScript.Sample | apps/server/src/scripts/monitor_system.py:21-31 | a sample exists exactly when all seven counters parse; total is their sum and idle is idle + iowait |
| MonitorScript.SampleIdleWithinTotal | apps/server/src/scripts/monitor_system.py:30-31 | with non-negative counters the idle time lies between 0 and the total |
| MonitorScript.ShortLineDefaults | apps/server/src/scripts/monitor_system.py:25-31 | a line with only user, nice, system and idle counts iowait, irq and softirq as 0 |
| MonitorScript.Usage | apps/server/src/scripts/monitor_system.py:52-60 | 0 when total_diff <= 0; otherwise the busy share of total_diff times 100, within [0, 100] whenever 0 <= idle_diff <= total_diff |
| MonitorScript.UsageBounds | apps/server/src/scripts/monitor_system.py:56-57 | (total_diff - idle_diff) / total_diff * 100 lies in [0, 100] when 0 <= idle_diff <= total_diff |
| MonitorScript.CpuUsage | apps/server/src/scripts/monitor_system.py:10-62 | 0.0 when the first reading is missing or the first word of its first line is not `cpu`, when the second reading is missing, or when either first line does not give a sample; otherwise exactly the usage between the two samples |
| MonitorScript.MemLine | apps/server/src/scripts/monitor_system.py:70-74 | a meminfo line is skipped exactly when it does not split into exactly two parts on ':' |
| MonitorScript.MemLineReads | apps/server/src/scripts/monitor_system.py:70-74 | a two-part line raises exactly when its right part has no word or its first word is not an integer; an entry's key is the trimmed left part and its value that integer |
| MonitorScript.MemLineOfRendered | apps/server/src/scripts/monitor_system.py:70-74 | a line written as the kernel does (a key, ': ', a number and a unit after a space) gives the trimmed key and the number |
| MonitorScript.MemoryReportOf | apps/server/src/scripts/monitor_system.py:64-91 | all three figures are 0 when the file cannot be read or a line raises; otherwise total is MemTotal and free is MemAvailable, each in KiB times 1024 (0 when absent), and used is always total minus free, with no clamping |
| MonitorScript.MemoryMissingKeys | apps/server/src/scripts/monitor_system.py:77-78 | a missing MemTotal or MemAvailable counts as 0; a present MemTotal is multiplied by 1024 |
| MonitorScript.MemoryReportOfEntries | apps/server/src/scripts/monitor_system.py:64-91 | a meminfo of a MemTotal line and a MemAvailable line gives total*1024, (total-available)*1024 and available*1024 |
| MonitorScript.MemoryReportExample | apps/server/src/scripts/monitor_system.py:64-91 | the meminfo 'MemTotal: 1000 kB' then 'MemAvailable: 400 kB' gives 1024000 bytes in all, 614400 used and 409600 free |
| MonitorScript.GetMemoryInfo | apps/server/src/scripts/monitor_system.py:64-91 | the loop that fills the dictionary computes the same report as MemoryReportOf, including the all-zero fallback when any line raises |
| MonitorScript.Uptime | apps/server/src/scripts/monitor_system.py:93-100 | 0 when /proc/uptime cannot be read, holds no word, or its first word is not a decimal number; otherwise the whole seconds of that first word |
| MonitorScript.UptimeMalformed | apps/server/src/scripts/monitor_system.py:93-100 | an empty reading and the word 'abc' both give 0 |
| MonitorScript.UptimeWholeSeconds | apps/server/src/scripts/monitor_system.py:97-98 | text of the form "n.fraction ..." gives exactly n whole seconds |
| MonitorScript.OsLine | apps/server/src/scripts/monitor_system.py:108-111 | a line is skipped exactly when it has no '='; no line raises; an entry's key is the stripped line up to its first '=', and its value is the rest with every leading and trailing '"' removed |
| MonitorScript.OsLineOfQuoted | apps/server/src/scripts/monitor_system.py:108-111 | a line KEY="value" gives exactly the key and the unquoted value |
| MonitorScript.OsTable | apps/server/src/scripts/monitor_system.py:105-111 | the os-release scan never fails and gives the table of the line-by-line loop |
| MonitorScript.OsInfoOf | apps/server/src/scripts/monitor_system.py:102-123 | NAME, VERSION_ID and PRETTY_NAME are taken from the table, each independently 'Unknown' when absent or when the file cannot be read |
| MonitorScript.OsInfoOfNameOnly | apps/server/src/scripts/monitor_system.py:102-123 | a file holding only NAME="v" gives name v with version and pretty name 'Unknown' |
| MonitorScript.OsInfoExample | apps/server/src/scripts/monitor_system.py:102-123 | the os-release text NAME="Ubuntu" gives Ubuntu, Unknown, Unknown |
| MonitorScript.GetOsInfo | apps/server/src/scripts/monitor_system.py:102-123 | the loop that fills the dictionary computes the same result as OsInfoOf |
| LinuxParser.MemInfoLine | apps/server/src/modules/system-monitor/utils/linux-parser.ts:18-30 | a meminfo line never raises; one with fewer than two whitespace tokens is skipped; an entry's key is one of MemTotal, MemFree, MemAvailable, Buffers, Cached (its first ':' removed) and its value is the parsed number times 1024 (the same lines in apps/server/src/app/utils/linux-parser.ts:21-33) |
| LinuxParser.MemTable | apps/server/src/modules/system-monitor/utils/linux-parser.ts:17-31 | the scan over all lines never fails |
| LinuxParser.MemTableKeys | apps/server/src/modules/system-monitor/utils/linux-parser.ts:24-30 | only the five known keys are ever recorded |
| LinuxParser.MemStatsOf | apps/server/src/modules/system-monitor/utils/linux-parser.ts:33-39 | total and free are MemTotal and MemFree (0 when absent); available falls back to free + buffers + cached exactly when MemAvailable is 0 or absent; used = total - available (the same in apps/server/src/app/utils/linux-parser.ts:37-43) |
| LinuxParser.MemTableStep | apps/server/src/modules/system-monitor/utils/linux-parser.ts:17-31 | one more line changes at most the variable it names, to that line's value |
| LinuxParser.ParseMemInfo | apps/server/src/modules/system-monitor/utils/linux-parser.ts:9-40 | the `forEach` over the lines reassigning five variables returns exactly MemStatsOf(data) |
| LinuxParser.CpuStatsOf | apps/server/src/modules/system-monitor/utils/linux-parser.ts:42-57 | {0, 0} when no line starts with "cpu "; otherwise, from the first such line, total is the sum of all numbers after the label and idle is the fourth plus the fifth (the same in apps/server/src/app/utils/linux-parser.ts:49-64) |
| LinuxParser.CpuStatsValues | apps/server/src/modules/system-monitor/utils/linux-parser.ts:50-54 | with every number readable, total is the integer sum and idle = idle + iowait; one unreadable number, or fewer than five numbers, gives NaN |
| LinuxParser.DfLine | apps/server/src/modules/system-monitor/utils/linux-parser.ts:68-88 | a row is dropped exactly when it has fewer than six tokens; otherwise name is token 0, mountPoint is tokens 5.. joined by single spaces, size and used are tokens 1 and 2 and the percentage is token 4 without its '%' (the same in apps/server/src/app/utils/linux-parser.ts:82-103) |
| LinuxParser.StorageOf | apps/server/src/modules/system-monitor/utils/linux-parser.ts:59-97 | the partitions are the accepted rows after the header, in order; totalBytes and usedBytes are the sums over them and free is their difference |
| LinuxParser.DfOnePartitionPerRow | apps/server/src/modules/system-monitor/utils/linux-parser.ts:60-89 | the header is never a partition, and each row with at least six tokens gives exactly one partition, in order (the same in apps/server/src/app/utils/linux-parser.ts:70-104) |
| LinuxParser.SumsStep | apps/server/src/modules/system-monitor/utils/linux-parser.ts:77-78 | pushing a partition adds its size and used bytes to the running sums |
| LinuxParser.ParseDfOutput | apps/server/src/modules/system-monitor/utils/linux-parser.ts:59-97 | the `forEach` that accumulates the sums and pushes the partitions returns exactly StorageOf(data) |
| LinuxParser.ScanDfRows | apps/server/src/modules/system-monitor/utils/linux-parser.ts:67-89 | the loop over the data rows pushes exactly the accepted rows' partitions, in order, and its running sums are the sums of their sizes and used bytes |
| LinuxParser.Truncate | apps/server/src/modules/system-monitor/utils/linux-parser.ts:131 | `substring(0, n)`: a prefix of at most n characters; the whole string when it is short enough, else exactly n characters |
| LinuxParser.StatusOfStat | apps/server/src/modules/system-monitor/utils/linux-parser.ts:117-127 | the upper-cased first STAT character R, S, D, T, Z, I gives running, sleeping, disk-sleep, stopped, zombie, idle; an empty STAT or any other character gives unknown; the result is always one of the seven names |
| LinuxParser.PsLine | apps/server/src/modules/system-monitor/utils/linux-parser.ts:104-136 | a row is dropped exactly when it has fewer than 11 tokens; otherwise user, pid, RSS and status come from tokens 0, 1, 5 and 7, and name is tokens 10.. joined by spaces and cut to 50 characters (the same in apps/server/src/app/utils/linux-parser.ts:125-143) |
| LinuxParser.PsOneProcessPerRow | apps/server/src/modules/system-monitor/utils/linux-parser.ts:100-137 | one process per non-header row with at least 11 tokens, in input order, and every name has at most 50 characters (the same in apps/server/src/app/utils/linux-parser.ts:118-144) |
| LinuxParser.PsStatusesMapped | apps/server/src/modules/system-monitor/utils/linux-parser.ts:117-127 | every process of the newer parser's scan has one of the seven status names |
| LinuxParser.PsStatusesRaw | apps/server/src/app/utils/linux-parser.ts:133-140 | the older parser's scan has one process per accepted row, and its status is that row's raw STAT token, unmapped |
| LinuxParser.ParsePsOutput | apps/server/src/modules/system-monitor/utils/linux-parser.ts:99-138 | one process per data row with at least eleven tokens, in order, each the process that row gives; every status is one of the seven names and every name at most 50 characters |
| LinuxParser.ParsePsOutputRaw | apps/server/src/app/utils/linux-parser.ts:117-144 | one process per accepted data row, in order, each the process that row gives, with the row's raw STAT token as its status |
| SystemMonitorService.CpuPercent | apps/server/src/modules/system-monitor/system-monitor.service.ts:29-31 | 0 exactly when totalDiff is 0; otherwise the value times totalDiff is 100 * (totalDiff - idleDiff); NaN (None) exactly when a difference is NaN and totalDiff is not 0 (the same rule at apps/server/src/app/system-monitor/system-monitor.service.ts:32-34) |
| SystemMonitorService.CpuPercentBounds | apps/server/src/modules/system-monitor/system-monitor.service.ts:29-31 | while the idle time grew by no more than the total, the percentage is a number in [0, 100] |
| SystemMonitorService.CpuPercentUnguarded | apps/server/src/modules/system-monitor/system-monitor.service.ts:31 | a total that went down is not guarded against: with growing idle time the percentage exceeds 100 |
| SystemMonitorService.UptimeOf | apps/server/src/modules/system-monitor/system-monitor.service.ts:33 | a text without a space is read whole by `parseFloat`; with a space only the part before the first one is read |
| SystemMonitorService.UptimeOfReading | apps/server/src/modules/system-monitor/system-monitor.service.ts:33 | a reading 'seconds.fraction idle' gives the seconds plus the fraction's digits over the matching power of ten, whatever the idle part holds |
| SystemMonitorService.OsValue | apps/server/src/modules/system-monitor/system-monitor.service.ts:43-45 | the value of a matching line never holds a '"' |
| SystemMonitorService.OsValueOfAssignment | apps/server/src/modules/system-monitor/system-monitor.service.ts:43-45 | for KEY=value with no second '=', the value is `value` with every '"' removed |
| SystemMonitorService.OsValueStopsAtSecondEquals | apps/server/src/modules/system-monitor/system-monitor.service.ts:43-45 | `split('=')[1]` stops at a second '=': only the text before it is kept |
| SystemMonitorService.PrefixesExclusive | apps/server/src/modules/system-monitor/system-monitor.service.ts:43-45 | no line starts with two of NAME=, VERSION=, ID=, so each line sets at most one identifier |
| SystemMonitorService.OsReleaseLine | apps/server/src/modules/system-monitor/system-monitor.service.ts:43-45 | a line sets the pretty name, the version or the name exactly when it starts with NAME=, VERSION= or ID=, to its unquoted value |
| SystemMonitorService.OsReleaseOf | apps/server/src/modules/system-monitor/system-monitor.service.ts:36-46 | an identifier that no line sets keeps its default: name 'Linux', version and pretty name 'Unknown' |
| SystemMonitorService.OsReleaseFromLines | apps/server/src/modules/system-monitor/system-monitor.service.ts:42-46 | an identifier that some line sets (ID=, VERSION=, NAME=) holds the unquoted second '='-field of such a line |
| SystemMonitorService.OsReleaseLastWins | apps/server/src/modules/system-monitor/system-monitor.service.ts:42-46 | the last line with a prefix decides that identifier: later matching lines override earlier ones |
| SystemMonitorService.OsReleaseStep | apps/server/src/modules/system-monitor/system-monitor.service.ts:42-46 | one more line changes exactly the identifier its prefix names, and nothing when it has none of the prefixes |
| SystemMonitorService.ScanOsReleaseLine | apps/server/src/modules/system-monitor/system-monitor.service.ts:42-46 | the `forEach` callback on one line turns the identifiers of the lines before it into those of the lines up to it |
| SystemMonitorService.ReadOsRelease | apps/server/src/modules/system-monitor/system-monitor.service.ts:36-49 | the `forEach` scan gives the defaults when /etc/os-release cannot be read and otherwise the identifiers of the line-by-line scan |
| SystemMonitorService.StatsOf | apps/server/src/modules/system-monitor/system-monitor.service.ts:51-61 | the record carries the parser's total and used memory, MemFree as ram_free, the CPU percentage of the two /proc/stat readings, the parsed uptime and the three identifiers |
| SystemMonitorService.GetSystemStats | apps/server/src/modules/system-monitor/system-monitor.service.ts:16-71 | an internal server error with the first failing read's message exactly when one of meminfo, the two /proc/stat readings or /proc/uptime fails; otherwise the record of StatsOf (a missing os-release only leaves defaults) |
| SystemMonitorService.RamFreeIsMemFree | apps/server/src/modules/system-monitor/system-monitor.service.ts:55 | ram_free is MemFree, and differs from the available memory whenever MemAvailable is set, non-zero and not MemFree |
| SystemMonitorService.GetSystemProcesses | apps/server/src/modules/system-monitor/system-monitor.service.ts:76-84 | runs the ps command once; its parsed output, or an internal server error 'Failed to retrieve processes' when it fails |
| SystemMonitorService.GetStorageData | apps/server/src/modules/system-monitor/system-monitor.service.ts:89-100 | runs the df command once; its parsed output, or an internal server error 'Failed to retrieve storage data' when it fails |
| SystemMonitorService.ValidPid | apps/server/src/modules/system-monitor/system-monitor.service.ts:106 | a PID is accepted exactly when it is a number other than 0; negative PIDs are accepted |
| SystemMonitorService.KillProcess | apps/server/src/modules/system-monitor/system-monitor.service.ts:105-117 | PID 0 or NaN is a bad request 'Invalid PID' and runs nothing; otherwise `kill -9 <pid>` runs once, with the success message or an internal server error naming the PID |
| SystemMonitorService.KillCommandNamesPid | apps/server/src/modules/system-monitor/system-monitor.service.ts:111 | the command is "kill -9 " followed by text that reads back as the same PID |
| LegacySystemMonitorService.GetSystemStats | apps/server/src/app/system-monitor/system-monitor.service.ts:19-80 | the error record (cpu, RAM and uptime 0, 'Error', 'N/A', 'System monitoring error' and the message) exactly when a required read fails; otherwise the same statistics as the newer service |
| LegacySystemMonitorService.AgreesWithCurrent | apps/server/src/app/system-monitor/system-monitor.service.ts:65-79 | where the newer service throws an internal server error, the older one returns the error record with the same message; otherwise both return the same record |
| LegacySystemMonitorService.GetSystemProcesses | apps/server/src/app/system-monitor/system-monitor.service.ts:85-93 | runs the ps command once; the listing with raw STAT columns, or the empty list when it fails |
| LegacySystemMonitorService.GetStorageData | apps/server/src/app/system-monitor/system-monitor.service.ts:98-114 | runs the df command once; the parsed output, or totals 0 and no partitions when it fails |
| LegacySystemMonitorService.KillProcess | apps/server/src/app/system-monitor/system-monitor.service.ts:119-131 | success exactly when the PID is valid and the kill succeeds; an invalid PID gives {false, 'Invalid PID'} and runs nothing; a failed kill names the PID and the command's error |
| UserManagementService.ListUsers | apps/server/src/modules/user-management/user-management.service.ts:39-52 | the `forEach` that pushes each listed account returns exactly UsersOf(content) |
| UserManagementService.GetUsers | apps/server/src/modules/user-management/user-management.service.ts:31-60 | the accounts listed in /etc/passwd, or an internal server error 'Failed to retrieve users' when it cannot be read |
| UserManagementService.PasswdEntryListed | apps/server/src/modules/user-management/user-management.service.ts:40-51 | a line is listed exactly when it has at least seven ':' fields and a uid of at least 1000 and a name other than 'nobody'; the account's fields are fields 0, 2, 3, 5 and 6 |
| UserManagementService.PasswdLineFields | apps/server/src/modules/user-management/user-management.service.ts:40 | a line written from seven fields without ':' splits back into exactly those fields |
| UserManagementService.PasswdEntryOfLine | apps/server/src/modules/user-management/user-management.service.ts:40-51 | reading back a written line gives the account, with its uid and gid, exactly when uid >= 1000 and the name is not 'nobody' |
| UserManagementService.NoColonInNumber | apps/server/src/modules/user-management/user-management.service.ts:44-45 | a written uid or gid never holds ':', so it stays one field |
| UserManagementService.ExtraFieldsIgnored | apps/server/src/modules/user-management/user-management.service.ts:43-47 | fields past the seventh do not change the account read from a line |
| UserManagementService.UsersFromLines | apps/server/src/modules/user-management/user-management.service.ts:39-52 | every listed user comes from a line of the file, and every line describing a regular account is listed |
| UserManagementService.UsersOf | apps/server/src/modules/user-management/user-management.service.ts:39-52 | the users are exactly the /etc/passwd lines that give an entry, one user per line, in file order, and every user has a numeric uid of at least 1000 and is not 'nobody' |
| UserManagementService.CommandError | apps/server/src/modules/user-management/user-management.service.ts:100-107 | a 403 exactly when the message contains 'password is required'; any other failure is an internal server error with the prefixed message |
| UserManagementService.SudoTestRedundant | apps/server/src/modules/user-management/user-management.service.ts:100 | the second test ('sudo: a password is required') is implied by the first |
| UserManagementService.CreateUser | apps/server/src/modules/user-management/user-management.service.ts:65-109 | an empty name is a bad request and runs nothing; useradd runs first and its failure is reported; the password is set only when given and after useradd succeeded; a failed chpasswd runs `userdel -r` and reports the password error whatever the cleanup gave |
| UserManagementService.DeleteUser | apps/server/src/modules/user-management/user-management.service.ts:111-132 | an empty name is a bad request and runs nothing; otherwise `userdel -r` runs once, with the success message or the mapped error |
| LegacyUserManagementService.GetUsers | apps/server/src/app/user-management/user-management.service.ts:24-51 | the same listed accounts as the newer service, or the read error itself |
| LegacyUserManagementService.CreateUser | apps/server/src/app/user-management/user-management.service.ts:56-77 | an empty name gives {false, 'Username is required'} and runs nothing; chpasswd runs only when a password is given and after useradd succeeded; the first failure gives success false with its message and nothing is undone |
| LegacyUserManagementService.DeleteUser | apps/server/src/app/user-management/user-management.service.ts:82-95 | an empty name gives {false, 'Username is required'} and runs nothing; otherwise `userdel -r` runs once and its outcome is reported as a record |
| UserManagementController.NumberOr | apps/server/src/modules/user-management/user-management.controller.ts:22-23 | `Number(s) \|\| default`: the number when it is truthy, else the default, so a non-zero default never yields 0 |
| UserManagementController.CeilDiv | apps/server/src/modules/user-management/user-management.controller.ts:36 | `Math.ceil(a / b)`: the least q with a <= b * q for a positive b (and the mirror for a negative one) |
| UserManagementController.Paginate | apps/server/src/modules/user-management/user-management.controller.ts:35-50 | the page always carries meta with the page, limit and total that were used |
| UserManagementController.GetUsers | apps/server/src/modules/user-management/user-management.controller.ts:12-51 | every account, unfiltered, exactly when page or limit is absent or empty; otherwise the page of the search's matches with page and limit defaulting to 1 and 10 |
| UserManagementController.PaginationDefaults | apps/server/src/modules/user-management/user-management.controller.ts:18-23 | no page or limit returns all users even with a search; page and limit are the numbers given, with 1 and 10 standing for 0 or NaN; total counts the matches |
| UserManagementController.SearchKeepsMatches | apps/server/src/modules/user-management/user-management.controller.ts:24-33 | without a search nothing is dropped; with one, an account is kept exactly when its lowercased name or shell contains the lowercased search, and only accounts of the input are kept |
| UserManagementController.TotalPagesCover | apps/server/src/modules/user-management/user-management.controller.ts:35-36 | totalPages is the least number of limit-sized pages that hold all matches |
| UserManagementController.PageContents | apps/server/src/modules/user-management/user-management.controller.ts:37-40 | for page and limit of at least 1 the data is the contiguous slice from (page - 1) * limit to min(start + limit, total), and empty past the end |
| UserManagementController.PageAtMostLimit | apps/server/src/modules/user-management/user-management.controller.ts:37-40 | with a positive limit a page never holds more than limit users, whatever the page number |
| UserManagementController.PageNonEmptyIff | apps/server/src/modules/user-management/user-management.controller.ts:36-40 | the page is non-empty exactly when page <= totalPages |
| UserManagementController.StartBeforeTotal | apps/server/src/modules/user-management/user-management.controller.ts:36-37 | a page starts before the end exactly when its number is at most totalPages |
| UserManagementController.PagesCoverAll | apps/server/src/modules/user-management/user-management.controller.ts:37-40 | pages 1 to n put together are the first n * limit matches, in order |
| UsernameValidator.Validate | apps/server/src/system/validators/username.validator.ts:5-8 | the empty name is invalid (the full pattern is stated by ValidateIff) |
| UsernameValidator.AssertValid | apps/server/src/system/validators/username.validator.ts:10-14 | no error exactly when validate accepts the name; otherwise the error names the pattern |
| UsernameValidator.RunFromAccepting | apps/server/src/system/validators/username.validator.ts:3 | after a well-formed prefix, the rest is accepted exactly when every character is in [a-z0-9_-] |
| UsernameValidator.RejectedStays | apps/server/src/system/validators/username.validator.ts:3 | once a character breaks the pattern no later character can repair it |
| UsernameValidator.ValidateIff | apps/server/src/system/validators/username.validator.ts:3-7 | validate accepts exactly the non-empty names whose first character is in [a-z_] and whose later characters are in [a-z0-9_-] |
| UsernameValidator.UppercaseRejected | apps/server/src/system/validators/username.validator.ts:3 | an upper-case letter anywhere makes the name invalid |
| UsernameValidator.LeadingDigitOrDashRejected | apps/server/src/system/validators/username.validator.ts:3 | a name starting with a digit or '-' is invalid |
| UsernameValidator.TrailingDigitsAccepted | apps/server/src/system/validators/username.validator.ts:3 | digits and '-' are accepted after a valid first character |
| ServiceManager.MapActiveStatus | apps/server/src/modules/service-manager/service-manager.service.ts:81-88 | active, inactive and failed each map to their own status, exactly; every other string is unknown |
| ServiceManager.MapActiveStatusRoundTrip | apps/server/src/modules/service-manager/service-manager.service.ts:81-88 | mapping a status's own name gives it back: the mapping is the identity on the three known names |
| ServiceManager.BuildEnablement | apps/server/src/modules/service-manager/service-manager.service.ts:45-48 | the `forEach` that sets unit_file to state returns the map of EnablementOf |
| ServiceManager.EnablementHasKey | apps/server/src/modules/service-manager/service-manager.service.ts:45-48 | a unit file is in the map exactly when some entry names it |
| ServiceManager.EnablementLastWins | apps/server/src/modules/service-manager/service-manager.service.ts:47 | the state kept for a unit file is that of the last entry naming it: later duplicates overwrite |
| ServiceManager.ServiceOf | apps/server/src/modules/service-manager/service-manager.service.ts:50-60 | running exactly when sub is 'running'; enabled exactly when the unit's file state is 'enabled'; an empty description falls back to the name; the status is the mapped active state |
| ServiceManager.ServicesOf | apps/server/src/modules/service-manager/service-manager.service.ts:50 | exactly one record per unit, in unit order |
| ServiceManager.GetServices | apps/server/src/modules/service-manager/service-manager.service.ts:22-67 | both systemctl listings are fetched in order; a failed command or an undecodable listing gives the empty list; otherwise the merged records |
| ServiceManager.ServiceEnabledIff | apps/server/src/modules/service-manager/service-manager.service.ts:45-59 | a listed service is enabled exactly when the last unit-file entry for its unit says 'enabled' |
| ServiceManager.ServiceNameOfUnit | apps/server/src/modules/service-manager/service-manager.service.ts:51 | a unit `<base>.service` whose base holds no '.service' is listed as `<base>` |
| ServiceManager.AuditLog.CreateLog | apps/server/src/modules/service-manager/service-manager.service.ts:73 | the entry is stored exactly when the store accepts it; a refused write changes nothing and returns the error |
| ServiceManager.UnitName | apps/server/src/modules/service-manager/service-manager.service.ts:71 | the unit always ends with '.service': the name itself when it already does, else the name with '.service' appended |
| ServiceManager.UnitNameIdempotent | apps/server/src/modules/service-manager/service-manager.service.ts:71 | normalising a normalised name changes nothing |
| ServiceManager.UnitNameOfListed | apps/server/src/modules/service-manager/service-manager.service.ts:51-71 | the name a listed service is shown under leads back to its unit |
| ServiceManager.ActionCommand | apps/server/src/modules/service-manager/service-manager.service.ts:71-72 | the command is 'sudo systemctl ', then the action, a space, and the unit name, ending with the unit name |
| ServiceManager.PerformAction | apps/server/src/modules/service-manager/service-manager.service.ts:69-79 | `sudo systemctl <action> <unit>` runs once; the audit entry is written only after it succeeds; a failure of either step is an internal server error naming the action and service |
| ServiceManager.AllowedActionsExactly | apps/server/src/modules/service-manager/service-manager.controller.ts:20 | the allowed actions are exactly start, stop, restart, enable and disable |
| ServiceManager.ControllerPerformAction | apps/server/src/modules/service-manager/service-manager.controller.ts:16-24 | an action outside start, stop, restart, enable and disable is a bad request 'Invalid action' that runs nothing and logs nothing; an allowed one runs exactly its systemctl command, and then fails with the command's message and logs nothing, or fails with the audit store's message and logs nothing, or logs SERVICE_{ACTION} for the name and answers 'Service {name} {action}ed successfully' |
| TerminalSessions.TerminalService.constructor | apps/server/src/modules/terminal/terminal.service.ts:8 | a new service holds no sessions and has written to or killed nothing |
| TerminalSessions.TerminalService.GetSession | apps/server/src/modules/terminal/terminal.service.ts:100-102 | a session is found exactly when one is stored under the socket, and it is the stored one |
| TerminalSessions.TerminalService.GetSessionCount | apps/server/src/modules/terminal/terminal.service.ts:107-109 | the count is the number of stored entries |
| TerminalSessions.TerminalService.CreateSession | apps/server/src/modules/terminal/terminal.service.ts:13-38 | a fresh pseudo-terminal stored under the socket with the given size, 80 x 30 by default, replacing any earlier entry; the count grows by one only for a new socket |
| TerminalSessions.TerminalService.WriteToSession | apps/server/src/modules/terminal/terminal.service.ts:43-52 | true exactly when a session is stored; the data then goes to that session's terminal; nothing else changes |
| TerminalSessions.TerminalService.ResizeSession | apps/server/src/modules/terminal/terminal.service.ts:57-74 | true exactly when a session is stored and its terminal's resize does not throw; then both cols and rows change; otherwise no session changes |
| TerminalSessions.TerminalService.KillSession | apps/server/src/modules/terminal/terminal.service.ts:79-95 | false for an unknown socket; a kill is attempted on a stored session's terminal; the entry is removed and true returned exactly when the kill does not throw; a throwing kill keeps the entry |
| TerminalSessions.TerminalService.KillAllSessions | apps/server/src/modules/terminal/terminal.service.ts:114-124 | a kill is attempted on every stored terminal and the map is cleared, so the count is 0 whichever kills threw |
| TerminalSessions.CountScenario | apps/server/src/modules/terminal/terminal.service.ts:13-124 | on a fresh service, two sockets give counts 1 and 2, a second session for the same socket keeps 2, and killing everything gives 0 |
| MonitoringLifecycle.Max | apps/server/src/modules/system-monitor/system-collector.service.ts:45 | `Math.max(a, b)`: at least both arguments and equal to one of them |
| MonitoringLifecycle.SystemCollectorService.constructor | apps/server/src/modules/system-monitor/system-collector.service.ts:11-18 | no subscribers, no intervals, no fetch yet; published values start as null, [] and null |
| MonitoringLifecycle.SystemCollectorService.Subscribe | apps/server/src/modules/system-monitor/system-collector.service.ts:29-42 | the count goes up by one; exactly when it was 0, monitoring starts with one immediate fetch of each kind and three intervals; otherwise timers are untouched; the invariant (intervals exist exactly while someone is subscribed) is kept |
| MonitoringLifecycle.SystemCollectorService.Unsubscribe | apps/server/src/modules/system-monitor/system-collector.service.ts:44-51 | the count becomes max(0, count - 1), never negative; at 0 every interval is cleared, including on repeated unsubscribes at 0; otherwise timers are untouched |
| MonitoringLifecycle.SystemCollectorService.StartMonitoring | apps/server/src/modules/system-monitor/system-collector.service.ts:53-65 | one fetch of stats, processes and storage is started, then exactly three intervals (2000, 5000 and 60000 ms) are installed |
| MonitoringLifecycle.SystemCollectorService.StopMonitoring | apps/server/src/modules/system-monitor/system-collector.service.ts:67-82 | every set interval is cleared and nulled; when none is set nothing changes, so stopping twice is stopping once |
| MonitoringLifecycle.SystemCollectorService.OnModuleDestroy | apps/server/src/modules/system-monitor/system-collector.service.ts:25-27 | monitoring stops whatever the count, which is kept |
| MonitoringLifecycle.SystemCollectorService.CompleteStatsFetch | apps/server/src/modules/system-monitor/system-collector.service.ts:84-91 | a fetched value is published; a failed fetch leaves the last published value unchanged; nothing else changes |
| MonitoringLifecycle.SystemCollectorService.CompleteProcessesFetch | apps/server/src/modules/system-monitor/system-collector.service.ts:93-100 | a fetched list is published; a failed fetch leaves the last list unchanged |
| MonitoringLifecycle.SystemCollectorService.CompleteStorageFetch | apps/server/src/modules/system-monitor/system-collector.service.ts:102-109 | a fetched value is published; a failed fetch leaves the last value unchanged |
| MonitoringLifecycle.SystemCollectorService.TriggerProcessRefresh | apps/server/src/modules/system-monitor/system-collector.service.ts:114-118 | exactly one more process fetch is started and nothing else changes |
| MonitoringLifecycle.CollectorScenario | apps/server/src/modules/system-monitor/system-collector.service.ts:29-51 | two subscribers, both leaving, a third unsubscribe at 0, then a new subscriber: counts 1, 2, 1, 0, 0, 1 with monitoring running exactly while the count is positive |
| MonitoringLifecycle.SystemGateway.constructor | apps/server/src/modules/system-monitor/system.gateway.ts:44-67 | no stored subscriptions and none ended |
| MonitoringLifecycle.SystemGateway.HandleConnection | apps/server/src/modules/system-monitor/system.gateway.ts:34-58 | the collector is subscribed once; exactly three subscriptions (stats, processes, storage) are stored under the client id, overwriting an earlier entry; other clients' entries are kept |
| MonitoringLifecycle.SystemGateway.HandleDisconnect | apps/server/src/modules/system-monitor/system.gateway.ts:39-67 | a stored entry's subscriptions are all ended and the entry removed; the collector is unsubscribed once whether or not an entry existed |
| MonitoringLifecycle.ReconnectScenario | apps/server/src/modules/system-monitor/system.gateway.ts:44-67 | connecting twice under one id and disconnecting once leaves no stored entry but one collector subscriber, so monitoring keeps running |
| MonitoringLifecycle.LegacySystemGateway.constructor | apps/server/src/app/system-monitor/system.gateway.ts:23-24 | no interval and no connected clients |
| MonitoringLifecycle.LegacySystemGateway.HandleConnection | apps/server/src/app/system-monitor/system.gateway.ts:32-40 | the count goes up by one; reaching exactly 1 emits once and installs the interval; the interval exists exactly while the count is positive |
| MonitoringLifecycle.LegacySystemGateway.HandleDisconnect | apps/server/src/app/system-monitor/system.gateway.ts:42-50 | the count goes down by one with no floor; reaching exactly 0 clears the interval; otherwise it is untouched |
| MonitoringLifecycle.LegacySystemGateway.StopMonitoring | apps/server/src/app/system-monitor/system.gateway.ts:70-76 | the interval, if any, is cleared and nulled; with none nothing changes, so it is idempotent |
| MonitoringLifecycle.LegacySystemGateway.OnModuleDestroy | apps/server/src/app/system-monitor/system.gateway.ts:98-100 | monitoring stops and the count is kept |
| MonitoringLifecycle.UnmatchedDisconnectScenario | apps/server/src/app/system-monitor/system.gateway.ts:33-49 | a disconnect with no connect drives the count to -1; the next connection only reaches 0 and starts nothing; the one after starts monitoring |
| Envelope.Get | apps/client/src/utils/axios-client.ts:15 | `v[key]` is undefined when the key is absent |
| Envelope.Wrap | apps/server/src/common/interceptors/response.interceptor.ts:15-24 | an object with a 'success' key passes unchanged; every other value, null, primitives and arrays included, becomes {success: true, data: value}; the result always has a 'success' key |
| Envelope.WrapIdempotent | apps/server/src/common/interceptors/response.interceptor.ts:17-24 | wrapping twice is wrapping once |
| Envelope.WrappedSucceeds | apps/server/src/common/interceptors/response.interceptor.ts:21-24 | a wrapped value says success: true and holds the value under 'data' |
| Envelope.Unwrap | apps/client/src/utils/axios-client.ts:13-22 | a body with success === true and a 'data' key is replaced by its data; every other body passes unchanged; status and headers are always kept (the same handler in apps/client/src/modules/shared/utils/axios-client.ts:14-23) |
| Envelope.Intercept | apps/client/src/utils/axios-client.ts:12-27 | a response goes through Unwrap and an error is passed on unchanged (the same in apps/client/src/modules/shared/utils/axios-client.ts:13-28) |
| Envelope.UnwrapInvertsWrap | apps/client/src/utils/axios-client.ts:15-19 | unwrapping the server's envelope gives back the handler's value, for every value without a 'success' key of its own |
| Envelope.EnvelopeLookalikeLosesFields | apps/server/src/common/interceptors/response.interceptor.ts:17-19 | a handler result that already looks like {success: true, data: x, ...} is not wrapped, and the client hands back only x |
| Envelope.FailureRecordPassesThrough | apps/client/src/utils/axios-client.ts:21 | a {success: false, message} result reaches the client whole |
| Envelope.RawMessage | apps/server/src/common/filters/global-exception.filter.ts:26-27 | the message is the response itself when it is a string, else its truthy 'message', else the exception's own message |
| Envelope.Catch | apps/server/src/common/filters/global-exception.filter.ts:16-40 | the body always has success false; a non-HTTP error is exactly 500 with 'Internal server error'; an HTTP error keeps its status, and its message is the raw message itself whenever that is not an array |
| Envelope.CatchMessages | apps/server/src/common/filters/global-exception.filter.ts:27-34 | an array of messages is joined with ', '; a string response is the message itself |
| Envelope.CatchFallsBackToExceptionMessage | apps/server/src/common/filters/global-exception.filter.ts:27 | an object response without a truthy 'message' falls back to the exception's message |
| Envelope.ErrorBodyNotUnwrapped | apps/client/src/utils/axios-client.ts:21 | an error body from the filter is never unwrapped by the client |
| ProcessStatuses.FromName | apps/client/src/utils/process.utils.ts:12-13 | a string is recognised exactly when it is one of the seven status names, and it is recognised as the status of that name |
| ProcessStatuses.MapProcessStatus | apps/client/src/utils/process.utils.ts:8-26 | a status name in any letter case is kept; any other non-empty string is decoded by its upper-cased first letter (R, S, D, I, T, Z, else unknown); the empty string is unknown |
| ProcessStatuses.MapProcessStatusOfName | apps/client/src/utils/process.utils.ts:12-13 | every status name maps back to its own status |
| ProcessStatuses.MapProcessStatusIdempotent | apps/client/src/utils/process.utils.ts:8-26 | mapping the shown name of a mapped status changes nothing |
| ProcessStatuses.MapProcessStatusCaseInsensitive | apps/client/src/utils/process.utils.ts:9-16 | lower-casing the input first never changes the status |
| ProcessStatuses.ShortCodeByLetter | apps/client/src/utils/process.utils.ts:16-24 | a raw STAT code of one to three characters is read by its first letter alone |
| ProcessStatuses.ClientKeepsServerStatus | apps/client/src/utils/process.utils.ts:12-13 | the status name the newer server computes from a STAT column is shown unchanged by the client |
| ProcessStatuses.ClientDecodesRawStatLikeServer | apps/client/src/utils/process.utils.ts:16-24 | a raw STAT code, which the older server passes through, decodes on the client to the same status the newer server would send |
| ProcessStatuses.MapStatus | apps/client/src/features/system-monitor/pages/processes.tsx:17-24 | the older page's badge is running exactly for 'running' and 'idle', stopped exactly for 'stopped' and 'dead', zombie exactly for 'zombie' (ignoring case), and sleeping for everything else |
| ProcessStatuses.MapStatusExamples | apps/client/src/features/system-monitor/pages/processes.tsx:17-24 | a raw 'R' shows as sleeping, 'Idle' as running and 'disk-sleep' as sleeping |
| Snackbars.Shown | apps/client/src/hooks/use-snackbar.ts:29-34 | a shown snackbar is open with the given message, and with the given severity or 'success' when none is given |
| Snackbars.Closed | apps/client/src/hooks/use-snackbar.ts:36-38 | closing only clears 'open': message and severity stay |
| Snackbars.ClosedIdempotent | apps/client/src/hooks/use-snackbar.ts:29-38 | closing twice is closing once, and closing a shown snackbar keeps its message and severity |
| Snackbars.Snackbar.constructor | apps/client/src/hooks/use-snackbar.ts:23-27 | a page starts closed, with no message and severity 'success' |
| Snackbars.Snackbar.Show | apps/client/src/hooks/use-snackbar.ts:29-34 | the state becomes the shown snackbar, whatever it was |
| Snackbars.Snackbar.OnClose | apps/client/src/hooks/use-snackbar.ts:36-38 | the state becomes the closed form of the previous state |
| Snackbars.Snackbar.Props | apps/client/src/hooks/use-snackbar.ts:40-42 | the props passed to the component are the current state |
| Snackbars.SnackbarScenario | apps/client/src/hooks/use-snackbar.ts:22-44 | show, close, close again and show an error give open/closed/closed/open states with the expected messages and severities |
| ProcessSearch.Search | apps/client/src/hooks/use-processes.ts:34-43 | a blank query keeps every row; otherwise every kept row matches (the lower-cased query occurs in the pid, the lower-cased name or the lower-cased user), every matching row is kept, and nothing new appears (the same rule in apps/client/src/pages/Processes.tsx:27-39 and apps/client/src/features/system-monitor/pages/processes.tsx:37-49) |
| ProcessSearch.SearchAppend | apps/client/src/hooks/use-processes.ts:37-42 | searching a list split in two is searching each half, so kept rows stay in their order |
| ProcessSearch.SearchFindsPid | apps/client/src/hooks/use-processes.ts:39 | typing a process's pid always finds it |
| ProcessSearch.QueryNotTrimmed | apps/client/src/hooks/use-processes.ts:35-36 | the query is not trimmed: a name followed by a space, such as 'chrome ', matches no process whose pid text and user are no longer than the name, not even the one called by the name |
| ProcessSearch.ClientOf | apps/client/src/hooks/use-processes.ts:24-31 | the hook's row keeps pid, name, user, cpu and memory and decodes the status with mapProcessStatus |
| ProcessSearch.BadgeOf | apps/client/src/features/system-monitor/pages/processes.tsx:27-34 | the older page's row keeps pid, name, user, cpu and memory and shows the badge status |
| ProcessSearch.ClientProcesses | apps/client/src/hooks/use-processes.ts:23-32 | one row per process, in the socket's order |
| ProcessSearch.BadgeProcesses | apps/client/src/features/system-monitor/pages/processes.tsx:26-35 | one row per process, in the socket's order |
| ProcessSearch.FilteredProcesses | apps/client/src/hooks/use-processes.ts:34-43 | a blank query shows all rows; every shown row matches and every matching process is shown |
| ProcessSearch.ClientSearchCommutes | apps/client/src/hooks/use-processes.ts:23-43 | decoding then searching gives the decoded rows of exactly the processes the search keeps |
| ProcessSearch.BadgeSearchCommutes | apps/client/src/features/system-monitor/pages/processes.tsx:26-49 | the same on the older page |
| ProcessSearch.PagesAgreeOnSearch | apps/client/src/features/system-monitor/pages/processes.tsx:37-49 | the hook and the older page show the same pids, in the same order, for every query |
| ProcessesScreen.KillUrl | apps/client/src/hooks/use-processes.ts:51-55 | a kill request's URL ends in '/force' exactly for a forced kill |
| ProcessesScreen.KillRequests | apps/client/src/hooks/use-processes.ts:55 | one DELETE per pid, in order, each to that pid's kill URL |
| ProcessesScreen.PatchRequests | apps/client/src/hooks/use-processes.ts:69-87 | one PATCH per pid, in order, to '/api/system/processes/{pid}/{verb}', for the verbs suspend and resume |
| ProcessesScreen.SelectedProcesses | apps/client/src/hooks/use-processes.ts:45-47 | exactly the rows whose pid is selected, drawn from the rows and nothing else |
| ProcessesScreen.SelectedWith | apps/client/src/pages/processes/processes.screen.tsx:37-38 | some selected row has a wanted status exactly when some row with a selected pid has it |
| ProcessesScreen.EnabledActions | apps/client/src/pages/processes/processes.screen.tsx:37-39 | suspend is enabled exactly when a selected row is running or sleeping; resume exactly when a selected row is stopped |
| ProcessesScreen.Clicked | apps/client/src/pages/processes/processes.screen.tsx:41-47 | a terminate or force-kill click opens the dialog with its kind and pid; without a (non-zero) pid it records the current selection |
| ProcessesScreen.PidsToKill | apps/client/src/pages/processes/processes.screen.tsx:50-52 | a confirm kills the dialog's pid, else the pids it recorded, else the current selection |
| ProcessesScreen.ClickThenConfirm | apps/client/src/pages/processes/processes.screen.tsx:41-54 | a click then a confirm kills the clicked pid, or the selection as it was at the click, whatever was selected in between |
| ProcessesScreen.ProcessesPage.constructor | apps/client/src/pages/processes/processes.screen.tsx:28-35 | nothing selected, the dialog closed, no request sent, the snackbar in its initial state |
| ProcessesScreen.ProcessesPage.SendBatch | apps/client/src/hooks/use-processes.ts:49-95 | an empty batch sends nothing and answers nothing; otherwise every request is sent, the answer is whether none failed, success clears the selection and shows the success message, failure keeps the selection and shows the error |
| ProcessesScreen.ProcessesPage.HandleKill | apps/client/src/hooks/use-processes.ts:49-63 | a non-empty kill sends the kill requests of every pid and reports whether all succeeded, clearing the selection only then |
| ProcessesScreen.ProcessesPage.HandleSuspend | apps/client/src/hooks/use-processes.ts:65-79 | the same for suspend requests |
| ProcessesScreen.ProcessesPage.HandleResume | apps/client/src/hooks/use-processes.ts:81-95 | the same for resume requests |
| ProcessesScreen.ProcessesPage.HandleKillClick | apps/client/src/pages/processes/processes.screen.tsx:41-47 | the dialog becomes the clicked dialog; nothing is sent |
| ProcessesScreen.ProcessesPage.HandleKillConfirm | apps/client/src/pages/processes/processes.screen.tsx:49-58 | the kill of the confirmed pids is sent (forced for a force dialog); the dialog closes and the selection clears only on success, and an empty kill leaves everything as it was |
| ProcessesScreen.ProcessesPage.HandleCancel | apps/client/src/pages/processes/processes.screen.tsx:167 | cancel closes the dialog and sends nothing |
| ProcessesScreen.ProcessesPage.OnSuspend | apps/client/src/pages/processes/processes.screen.tsx:60 | suspends the row's pid, else the whole selection |
| ProcessesScreen.ProcessesPage.OnResume | apps/client/src/pages/processes/processes.screen.tsx:61 | resumes the row's pid, else the whole selection |
| ProcessesScreen.ConfirmScenario | apps/client/src/pages/processes/processes.screen.tsx:41-58 | confirming a toolbar kill with nothing selected sends nothing and the dialog stays open; a failed single kill keeps the dialog and the selection |
| ServicesScreen.FilteredServices | apps/client/src/pages/services/services.screen.tsx:52-59 | a blank query keeps every service; otherwise every kept service has the lower-cased query in its lower-cased name or description, every such service is kept, and nothing new appears |
| ServicesScreen.Payload | apps/client/src/pages/services/services.screen.tsx:20 | the body's 'data' when it is truthy, otherwise the body itself |
| ServicesScreen.PayloadOpensEnvelope | apps/client/src/pages/services/services.screen.tsx:20-22 | the list is found both in the server's envelope and as a bare array |
| ServicesScreen.FailureRecordIsNoList | apps/client/src/pages/services/services.screen.tsx:20-25 | a {success: false, message} record from the server is not taken as a list |
| ServicesScreen.ServicesPage.constructor | apps/client/src/pages/services/services.screen.tsx:12-15 | no services, loading, the notice closed, nothing posted |
| ServicesScreen.ServicesPage.FetchServices | apps/client/src/pages/services/services.screen.tsx:17-33 | an array payload becomes the list, any other payload empties it, a failed request keeps the list and shows 'Failed to load services'; loading ends in every case |
| ServicesScreen.ServicesPage.HandleAction | apps/client/src/pages/services/services.screen.tsx:41-50 | the action is posted; on success the list is refetched, so it becomes the refetched array (empty for a non-array payload) and the notice reads 'Service {name} {action}ed successfully', or, when the refetch fails, the list stays and the notice reads 'Failed to load services'; loading ends; on failure the notice reads 'Failed to {action} service {name}' and the list and loading stay |
| ServicesScreen.FetchScenario | apps/client/src/pages/services/services.screen.tsx:17-37 | the first fetch of the envelope fills the list and ends loading; a later failed fetch keeps it |
| LegacyProcesses.LegacyProcessesPage.constructor | apps/client/src/features/system-monitor/pages/processes.tsx:51-55 | the notice starts closed with no message and severity 'success'; nothing deleted |
| LegacyProcesses.LegacyProcessesPage.HandleKill | apps/client/src/features/system-monitor/pages/processes.tsx:57-68 | every click deletes '/api/system/processes/{pid}'; the notice says 'Killed process {pid}' on success and 'Failed to kill process {pid}' as an error otherwise |
| LegacyProcesses.KillTwiceScenario | apps/client/src/features/system-monitor/pages/processes.tsx:57-68 | two clicks send two requests and the notice shows the later outcome only |
| DataTable.StrLessIrreflexive | apps/client/src/components/table/table.component.tsx:171 | no string is less than itself under JavaScript's string '<' |
| DataTable.StrLessTransitive | apps/client/src/components/table/table.component.tsx:171 | string '<' is transitive |
| DataTable.StrLessTotal | apps/client/src/components/table/table.component.tsx:171 | of two different strings one is less than the other |
| DataTable.LessOrder | apps/client/src/components/table/table.component.tsx:171 | the cell order is irreflexive, transitive and total on present cells |
| DataTable.NextOrder | apps/client/src/components/table/table.component.tsx:151-155 | a click sorts descending exactly when the clicked column already sorts ascending; every other click sorts ascending |
| DataTable.ClickingAlternates | apps/client/src/components/table/table.component.tsx:151-155 | a new column starts ascending whatever the old direction, and repeated clicks on one column alternate |
| DataTable.SortState.constructor | apps/client/src/components/table/table.component.tsx:148-149 | the sort starts from the initial column and direction props |
| DataTable.SortState.HandleSort | apps/client/src/components/table/table.component.tsx:151-155 | the clicked column becomes the sort column, with the direction NextOrder gives |
| DataTable.CompareCells | apps/client/src/components/table/table.component.tsx:167-172 | the comparator is 0 exactly for equal cells, puts an empty cell after a present one, and otherwise follows '<' in the sort's direction |
| DataTable.Normalize | apps/client/src/components/table/table.component.tsx:167-169 | a cell is empty exactly when it is null or undefined |
| DataTable.CompareCellsAsWritten | apps/client/src/components/table/table.component.tsx:167-172 | the comparator as written agrees with CompareCells except on a null cell met by an undefined one, where it answers 1 in both orders |
| DataTable.CompareCellsAsWrittenInconsistent | apps/client/src/components/table/table.component.tsx:167-172 | as written, the comparator is not consistent: null is put after undefined and undefined after null |
| DataTable.CompareCellsNotAfter | apps/client/src/components/table/table.component.tsx:167-172 | a comparison of at most 0 means the first cell may stay before the second, and the comparator is antisymmetric |
| DataTable.NotAfterTransitive | apps/client/src/components/table/table.component.tsx:167-172 | 'may stay before' is transitive |
| DataTable.RowCompareConsistent | apps/client/src/components/table/table.component.tsx:163-173 | the row comparator is a consistent comparator, so the sort has a defined result |
| DataTable.SortedData | apps/client/src/components/table/table.component.tsx:157-174 | the shown rows are a permutation of the data; without a sort column, with an unknown column or an unsortable one they are the data itself |
| DataTable.SortedDataOrdered | apps/client/src/components/table/table.component.tsx:157-174 | a sorted table keeps empty cells after present ones and never puts a smaller cell after a larger one ascending, nor a larger after a smaller descending |
| DataTable.UnsortableColumnKeepsOrder | apps/client/src/components/table/table.component.tsx:160-161 | a column the table lacks, or one marked sortable: false, leaves the data in its order |
| DataTable.ToggledSelection | apps/client/src/components/table/table.component.tsx:185-197 | a row's checkbox appends an unselected id and removes every occurrence of a selected one; every other id keeps its membership |
| DataTable.HandleSelectOne | apps/client/src/components/table/table.component.tsx:185-197 | the toggled selection is passed on exactly when there is a callback |
| DataTable.ToggleTwice | apps/client/src/components/table/table.component.tsx:185-197 | toggling a row twice restores the set of selected ids |
| DataTable.HandleSelectAll | apps/client/src/components/table/table.component.tsx:176-183 | checking selects every row's id in data order, unchecking selects none, and nothing is called without a callback |
| DataTable.HeaderCheckbox | apps/client/src/components/table/table.component.tsx:206-208 | the header is checked exactly when the table has rows and all are selected, and indeterminate exactly when some but not all are |
| DataTable.HeaderAfterSelectAll | apps/client/src/components/table/table.component.tsx:176-208 | after select-all the header is checked (on a non-empty table) and not indeterminate; after clearing it is neither |
| ProcessTables.ByKeyConsistent | apps/client/src/pages/processes/process-table.part.tsx:35-53 | comparing rows by '<' and '>' on a never-empty cell gives a consistent comparator |
| ProcessTables.SortByKeyOrdered | apps/client/src/pages/processes/process-table.part.tsx:35-53 | a table sorted by such a cell is a permutation of its input with no cell followed by a smaller one ascending or by a larger one descending |
| ProcessTables.SortedBadgeProcesses | apps/client/src/modules/system-monitor/components/processes/process-table.tsx:35-55 | the older table's rows are a permutation of the processes, and sorting by 'actions' keeps their order |
| ProcessTables.SortedBadgeProcessesOrdered | apps/client/src/modules/system-monitor/components/processes/process-table.tsx:35-55 | sorting the older table by any data column orders the rows by that column (strings lower-cased) in the sort's direction |
| ProcessTables.BadgeCaseInsensitive | apps/client/src/modules/system-monitor/components/processes/process-table.tsx:42-45 | names or users that differ only in letter case tie |
| ProcessTables.BadgeProcessTable.constructor | apps/client/src/modules/system-monitor/components/processes/process-table.tsx:26-27 | the older table starts sorted by CPU, descending |
| ProcessTables.BadgeProcessTable.HandleSort | apps/client/src/modules/system-monitor/components/processes/process-table.tsx:29-33 | the clicked field becomes the sort field, descending exactly when it already sorted ascending |
| ProcessTables.BadgeProcessTable.Rows | apps/client/src/modules/system-monitor/components/processes/process-table.tsx:35-55 | the shown rows are a permutation of the processes, in their order when sorted by 'actions' |
| ProcessTables.BadgeTableScenario | apps/client/src/modules/system-monitor/components/processes/process-table.tsx:26-55 | a fresh table lists the busiest process first; two CPU clicks give ascending then descending; an ACTIONS click keeps the rows as they came |
| ProcessTables.SortedClientProcesses | apps/client/src/pages/processes/process-table.part.tsx:35-53 | the newer table's rows are a permutation of the processes ordered by the sort column in the sort's direction |
| ProcessTables.ClientHeaderClicks | apps/client/src/pages/processes/process-table.part.tsx:55-87 | the ACTIONS header (which borrows 'pid' as its id) has no sort control, and each of the six data columns has one |
| ProcessTables.ClientProcessTable.constructor | apps/client/src/pages/processes/process-table.part.tsx:26-27 | the newer table starts sorted by CPU, descending |
| ProcessTables.ClientProcessTable.HandleSort | apps/client/src/pages/processes/process-table.part.tsx:29-33 | the clicked field becomes the sort field, descending exactly when it already sorted ascending |
| ProcessTables.ClientProcessTable.Rows | apps/client/src/pages/processes/process-table.part.tsx:35-53 | the shown rows are a permutation of the processes |
| SystemHistory.GuardedRam | apps/client/src/hooks/use-system-history.ts:25-27 | with a positive total the hook's RAM percent times the total is 100 times the used memory; with no positive total it is 0 |
| SystemHistory.UnguardedRam | apps/client/src/pages/dashboard/dashboard.screen.tsx:34 | the newer screen's RAM percent is a number exactly when the total is not zero, and then it is used/total*100 |
| SystemHistory.ZeroTotalRam | apps/client/src/hooks/use-system-history.ts:25-27 | for a zero total the hook records 0 where the newer screen has no number |
| SystemHistory.Appended | apps/client/src/hooks/use-system-history.ts:29-30 | the new point is last, the rest is the tail of the old history, a history within the bound stays within it, and nothing is dropped while there is room |
| SystemHistory.AppendedKeepsRecent | apps/client/src/hooks/use-system-history.ts:21-31 | appending to a trimmed history equals trimming the whole record with the point appended: the history is always the latest points received, in arrival order |
| SystemHistory.History.constructor | apps/client/src/hooks/use-system-history.ts:11 | a history starts empty |
| SystemHistory.History.OnStats | apps/client/src/hooks/use-system-history.ts:13-33 | null stats change nothing; otherwise the point made from the stats and clock string is appended and the history trimmed, so it stays the last maxPoints points received (the same effect in apps/client/src/pages/Dashboard.tsx:35-55, apps/client/src/pages/dashboard/dashboard.screen.tsx:22-40 and apps/client/src/pages/dashboard.tsx:29-40 with bounds 20, 30 and 30) |
| SystemHistory.DashboardScenario | apps/client/src/pages/Dashboard.tsx:35-55 | two arrivals around a null update leave exactly the two points, in order |
| SystemHistory.CurrentCpu | apps/client/src/pages/dashboard/dashboard.screen.tsx:76 | the latest point's CPU, or the stats' own before any point exists |
| SystemHistory.PrevCpu | apps/client/src/pages/dashboard/dashboard.screen.tsx:80 | the CPU of the point before the latest, or the current value when there are fewer than two points |
| SystemHistory.ChangeTypeOf | apps/client/src/pages/dashboard/dashboard.screen.tsx:110 | positive, negative or neutral exactly as the change is above, below or at zero |
| SystemHistory.PrefixMatchesChange | apps/client/src/pages/dashboard/dashboard.screen.tsx:109-110 | the '+' sign is written exactly when the change type is not negative, so a zero change reads '+' and neutral |
| SystemHistory.ShortHistoryNeutral | apps/client/src/pages/dashboard/dashboard.screen.tsx:76-81 | with fewer than two points the change is zero and neutral |
| SystemHistory.DiffAfterArrival | apps/client/src/pages/dashboard/dashboard.screen.tsx:30-38 | after an arrival on a non-empty history the card shows the new CPU and its change from the previous latest point |
| Uptime.JsRem | apps/client/src/pages/Dashboard.tsx:60-61 | JavaScript's '%' for a positive divisor: the Euclidean remainder for a non-negative dividend, and a non-positive one of smaller size for a negative dividend |
| Uptime.UptimePartsDecompose | apps/client/src/pages/Dashboard.tsx:58-61 | for a non-negative uptime the days, hours (0-23) and minutes (0-59) add up to the uptime less under a minute |
| Uptime.NegativeUptimeParts | apps/client/src/pages/Dashboard.tsx:58-61 | a negative uptime has negative days and no positive hours or minutes |
| Uptime.PositiveNotZeroText | apps/client/src/pages/Dashboard.tsx:64-66 | a positive number is never written '0' |
| Uptime.PartNotEmpty | apps/client/src/pages/Dashboard.tsx:64-66 | a part is never empty and never '0m' |
| Uptime.FormatUptimeDhmZero | apps/client/src/pages/Dashboard.tsx:58-69 | the days-hours-minutes text is '0m' exactly when the uptime is under a minute |
| Uptime.JoinLong | apps/client/src/pages/Dashboard.tsx:68 | two or more parts joined by a space are longer than '0m' |
| Uptime.JoinLength | apps/client/src/pages/Dashboard.tsx:68 | a join of non-empty parts is at least as long as the parts and separators |
| Uptime.NoDayLetter | apps/client/src/pages/dashboard/dashboard.screen.tsx:46-47 | a written number never contains 'd' |
| Uptime.FormatUptimeDhDays | apps/client/src/pages/dashboard/dashboard.screen.tsx:42-48 | the days-hours text names days exactly from one full day on, and always ends with the hours (the same function in apps/client/src/pages/dashboard.tsx:42-48) |
| Uptime.FormatUptimeDhHours | apps/client/src/pages/dashboard/dashboard.screen.tsx:42-48 | under a day only the whole hours are written |
| Uptime.FormatUptimeExamples | apps/client/src/pages/Dashboard.tsx:58-69 | 90061 seconds reads '1d 1h 1m' on one dashboard and '1d 1h' on the others; 59 seconds reads '0m' |
| Settings.Spread | apps/client/src/contexts/settings.context.tsx:38 | spreading an object copies its fields, an array or a string gives its elements or characters under their decimal indices, and null, numbers and booleans give nothing |
| Settings.InitialSettings | apps/client/src/contexts/settings.context.tsx:34-44 | no saved text, an empty one, or one that does not parse gives the defaults; a saved text that parses is spread over the defaults |
| Settings.InitialKeepsDefaultKeys | apps/client/src/contexts/settings.context.tsx:34-44 | the first settings always have both default keys, with the default value wherever the saved text does not give one |
| Settings.SavedScalarGivesDefaults | apps/client/src/contexts/settings.context.tsx:38 | a saved null, number or boolean leaves the defaults |
| Settings.Updated | apps/client/src/contexts/settings.context.tsx:48 | an update has the keys of both; given fields take the new value and every other field keeps its old one |
| Settings.UpdatedCompose | apps/client/src/contexts/settings.context.tsx:46-52 | an empty update changes nothing, and two updates are one update with the later values winning |
| Settings.SettingsProvider.constructor | apps/client/src/contexts/settings.context.tsx:34-44 | the provider starts from the saved text as InitialSettings reads it |
| Settings.SettingsProvider.UpdateSettings | apps/client/src/contexts/settings.context.tsx:46-52 | the settings become the update of the old ones and their text is stored |
| Settings.SettingsProvider.ResetSettings | apps/client/src/contexts/settings.context.tsx:54-57 | the settings become the defaults and the defaults' text is stored |
| Settings.ReloadRestores | apps/client/src/contexts/settings.context.tsx:34-52 | what is stored is what the next start reads back, for settings holding both default keys and a JSON.parse that reads what JSON.stringify writes |
| Settings.ResetScenario | apps/client/src/contexts/settings.context.tsx:46-57 | resetting after an update, and resetting again, gives the defaults both times and stores them |
| Theme.InitialMode | apps/client/src/modules/shared/contexts/theme-context.tsx:28-31 | the first mode is the saved string when it is non-empty, unchecked, and 'light' otherwise |
| Theme.Toggled | apps/client/src/modules/shared/contexts/theme-context.tsx:35 | toggling gives 'dark' exactly from 'light' and 'light' from anything else |
| Theme.ToggleSwitchesTheme | apps/client/src/modules/shared/contexts/theme-context.tsx:35-43 | a toggle always switches between the light and the dark theme |
| Theme.ToggleTwice | apps/client/src/modules/shared/contexts/theme-context.tsx:28-43 | toggling twice restores 'light' or 'dark'; an unrecognised saved mode such as 'blue' shows the dark theme and comes back as 'dark' |
| Theme.ThemeProvider.constructor | apps/client/src/modules/shared/contexts/theme-context.tsx:28-31 | the provider starts from the saved mode as InitialMode reads it |
| Theme.ThemeProvider.ToggleTheme | apps/client/src/modules/shared/contexts/theme-context.tsx:33-39 | the mode is toggled and the new mode stored |
| Theme.ReloadScenario | apps/client/src/modules/shared/contexts/theme-context.tsx:28-39 | a toggled mode survives a reload |
| AuditLogsScreen.ActionColor | apps/client/src/pages/audit-logs/audit-logs.screen.tsx:46-51 | an action is an error exactly when it contains DELETE or KILL, a success exactly when it contains CREATE and is not an error, a warning exactly when it contains UPDATE and neither, and default exactly when it contains none (case-sensitive) |
| AuditLogsScreen.OccursContains | apps/client/src/pages/audit-logs/audit-logs.screen.tsx:47-49 | an occurrence at a known position makes 'includes' true |
| AuditLogsScreen.FirstLetterAbsent | apps/client/src/pages/audit-logs/audit-logs.screen.tsx:47-49 | a word whose first letter is absent does not occur |
| AuditLogsScreen.ErrorStaysError | apps/client/src/pages/audit-logs/audit-logs.screen.tsx:47 | text appended to an error action keeps it an error |
| AuditLogsScreen.KillIsError | apps/client/src/pages/audit-logs/audit-logs.screen.tsx:47 | every action ending in KILL, such as 'PROCESS_KILL', is an error |
| AuditLogsScreen.CreateIsSuccess | apps/client/src/pages/audit-logs/audit-logs.screen.tsx:48 | an action ending in CREATE, such as 'USER_CREATE', is a success when nothing before it reads as DELETE or KILL |
| AuditLogsScreen.DeleteOutranksCreate | apps/client/src/pages/audit-logs/audit-logs.screen.tsx:47-48 | an action holding CREATE and later DELETE is an error, whatever surrounds them |
| AuditLogsScreen.LowerCaseIsDefault | apps/client/src/pages/audit-logs/audit-logs.screen.tsx:46-51 | a lower-case 'delete' is not matched and shows the default colour |
| AuditLogsScreen.AuditLogsPage.constructor | apps/client/src/pages/audit-logs/audit-logs.screen.tsx:11-13 | the screen starts with no logs, loading, and no error |
| AuditLogsScreen.AuditLogsPage.LoadLogs | apps/client/src/pages/audit-logs/audit-logs.screen.tsx:22-33 | a successful load replaces the logs and clears the error; a failed one keeps the logs and sets 'Failed to load audit logs'; loading ends either way |
| AuditLogsScreen.RefreshScenario | apps/client/src/pages/audit-logs/audit-logs.screen.tsx:15-33 | a failed refresh keeps the logs shown next to the error, and the next successful refresh clears the error |

## Left out

- **File and process I/O.** Reading `/proc`, `/etc/passwd` and `/etc/os-release`, and spawning `ps`, `df`, `systemctl`, `sudo`, `useradd`, `chpasswd` and `userdel`, are outside the model. Their text or outcome is a parameter.
- **node-pty and socket.io.** A pseudo-terminal is an identity whose resize and kill may throw. The spawn environment (shell choice, `TERM`, working directory) is not modelled. Sockets are identities, and emitted events are not modelled.
- **Timing and concurrency.** `time.sleep`, `setInterval` polling, the 500 ms pause before a process refresh and rxjs subjects are not modelled; intervals are identities that are installed and cleared. `Promise.all` batching is modelled as every request sent and the batch succeeding when none fails. A fetch that is not awaited is modelled as finishing before the next step.
- **Floating point.** The following are not modelled:
  - the rounding of the CPU percentage (`round(…, 2)`, `toFixed`);
  - the gigabyte strings of `parseDfOutput`;
  - `parseFloat` of the `%CPU` and `%MEM` columns;
  - `rss/1024`;
  - chart percentages.
  CPU and RAM ratios are `real`s. Integers from `parseInt` are unbounded.
- **JSON and storage.** `JSON.parse` and `JSON.stringify` are parameters; a parse that throws is `None`. `localStorage` is a field of the provider that owns the key.
- **Clock strings and dates.** The time label of a history point is given by the caller. The audit screen's `formatDate`, and the timestamps of the statistics record and of audit entries, are not modelled.
- **Strings.** A string is a sequence of code points, not UTF-16 units. Letter case is mapped for ASCII letters only.
- **The collector script's `main()`.** Its JSON printing and timestamps are not modelled.
- **UI, networking and framework glue.** The following are not modelled:
  - rendering;
  - the socket and SWR hooks and the axios API modules;
  - the TypeORM audit store;
  - the class-validator DTOs, including the pagination DTO;
  - Nest modules.
  An audit entry is recorded as a value.
- **The older processes page's suspend button.** It only logs, so it is not modelled.
- **The RAM change card of the newer dashboard.** It has the same shape as the CPU card and is not modelled.
- **`NumberOf` input forms.** `NumberOf` reads integer text only. Fractions, exponents and hexadecimal text are not modelled.
- DataTable.Less: a comparison between a number and a string converts the string to a number in JavaScript. Here numbers are placed before strings instead, which keeps the order total. Columns of one kind, which is what the tables hold, are unaffected.
- ProcessSearch.ClientOf: the row's memory is carried over without the `parseFloat(toFixed(1))` rounding of `useProcesses`.
- SystemHistory.Appended: `maxPoints` is a natural number. A negative `maxPoints`, which would drop points from the front in JavaScript, is not modelled.
- SystemHistory.UnguardedRam: a zero total gives `None`. This stands for both the `NaN` and the `Infinity` that JavaScript would show.
- Uptime.UptimePartsDecompose: uptimes are whole seconds. The fractional seconds a client could receive are not modelled.
- MonitorScript.Usage: the percentage is exact. The two-decimal rounding of the script is not modelled.
- DataTable.CompareCells: the table works on merged cells, where `null` and `undefined` are one empty value. The comparator as written keeps them apart. That behaviour is `DataTable.CompareCellsAsWritten`, over `DataTable.RawValue`, and is listed under Findings.
- Text.Trim: only the six ASCII whitespace characters are stripped. JavaScript's `trim()` and Python's `strip()` also strip Unicode spaces such as U+00A0, U+2028 and U+FEFF, and Python also strips U+001C to U+001F and U+0085.
- Text.Words: words are split on the same six ASCII characters only. Python's `split()` also splits on the Unicode whitespace named under Text.Trim.
- Text.ParseIntStrict: Python's `int()` also accepts digit-group underscores (`1_000`) and non-ASCII decimal digits. Here both give `None`, so a counter written that way reads as a line that raises.
- Text.ParseDecimalTruncated: Python's `float()` also accepts exponents (`1e3`), underscores, `inf`, `infinity` and `nan`. Here all of these give `None`. For example, an uptime of `1e3` is 1000 seconds in the script and 0 in the model. For `inf` and `nan` both give 0, because the script's `int()` raises on them.
- Text.ParseFloatPrefix: JavaScript's `parseFloat` also reads an exponent (`1e3` is 1000) and `Infinity`. Here the exponent is not read (`1e3` is 1) and `Infinity` gives `None`.

## Findings

| source | as written | input that shows it | evidently intended | confidence | as-written member | corrected member |
|---|---|---|---|---|---|---|
| apps/client/src/components/table/table.component.tsx:167-169 | an empty cell is tested with `=== null` and `=== undefined` after an `aValue === bValue` test, so a `null` cell and an `undefined` cell are not equal and each is put after the other | a column holding `null` in one row and `undefined` in another: compare(null, undefined) and compare(undefined, null) are both 1 | both empty values tie, so the comparator is consistent and the sort has a defined result | not executed | DataTable.CompareCellsAsWritten, DataTable.CompareCellsAsWrittenInconsistent | DataTable.CompareCells, DataTable.RowCompareConsistent |

/** The client's readings of a process status: `mapProcessStatus`
    (`utils/process.utils.ts`), which keeps the seven states the newer
    server reports and decodes a raw `ps` STAT code by its first letter, and
    the four-valued badge status of the older processes page
    (`features/system-monitor/pages/processes.tsx`). */
module ProcessStatuses {
  import opened Wrappers
  import opened Text
  import LinuxParser

  datatype ProcessStatus = Running | Sleeping | Stopped | Zombie | DiskSleep | Idle | Unknown

  /** The status as the client shows it, which is also the name the newer
      server sends. */
  function Name(st: ProcessStatus): string {
    match st
    case Running => "running"
    case Sleeping => "sleeping"
    case Stopped => "stopped"
    case Zombie => "zombie"
    case DiskSleep => "disk-sleep"
    case Idle => "idle"
    case Unknown => "unknown"
  }

  /** The status a canonical name stands for; `None` for any other string. */
  function FromName(s: string): (r: Option<ProcessStatus>)
    ensures r.Some? ==> Name(r.value) == s
    ensures r.None? ==> forall st: ProcessStatus :: Name(st) != s
  {
    if s == "running" then Some(Running)
    else if s == "sleeping" then Some(Sleeping)
    else if s == "stopped" then Some(Stopped)
    else if s == "zombie" then Some(Zombie)
    else if s == "disk-sleep" then Some(DiskSleep)
    else if s == "idle" then Some(Idle)
    else if s == "unknown" then Some(Unknown)
    else None
  }

  /** A `ps` state letter (already upper-cased). */
  function OfLetter(c: char): ProcessStatus {
    match c
    case 'R' => Running
    case 'S' => Sleeping
    case 'D' => DiskSleep
    case 'I' => Idle
    case 'T' => Stopped
    case 'Z' => Zombie
    case _ => Unknown
  }

  /** `mapProcessStatus(status)`: a status that is a canonical name in any
      letter case is that status; anything else is read by its first
      letter, and the empty string is unknown. */
  function MapProcessStatus(status: string): (r: ProcessStatus)
    ensures FromName(ToLower(status)).Some? ==> Name(r) == ToLower(status)
    ensures FromName(ToLower(status)).None? && status == "" ==> r == Unknown
    ensures FromName(ToLower(status)).None? && status != "" ==> r == OfLetter(UpperChar(status[0]))
  {
    var s := ToLower(status);
    match FromName(s)
    case Some(st) => st
    case None => if status == "" then Unknown else OfLetter(ToUpper(status)[0])
  }

  /** The canonical name of a status maps back to it. */
  lemma MapProcessStatusOfName(st: ProcessStatus)
    ensures MapProcessStatus(Name(st)) == st
  {
    var n := Name(st);
    assert ToLower(n) == n;
  }

  /** Mapping is idempotent on what it shows. */
  lemma MapProcessStatusIdempotent(status: string)
    ensures MapProcessStatus(Name(MapProcessStatus(status))) == MapProcessStatus(status)
  {
    MapProcessStatusOfName(MapProcessStatus(status));
  }

  /** Letter case never matters. */
  lemma MapProcessStatusCaseInsensitive(status: string)
    ensures MapProcessStatus(ToLower(status)) == MapProcessStatus(status)
  {
    ToLowerIdempotent(status);
    if status != "" {
      assert UpperChar(LowerChar(status[0])) == UpperChar(status[0]);
    }
  }

  /** A raw STAT code (at most three characters, as `ps` prints it: `Ss`,
      `R+`, `I<`) is read by its first letter alone: it cannot be a
      canonical name, all of which are longer. */
  lemma ShortCodeByLetter(stat: string)
    requires 1 <= |stat| <= 3
    ensures MapProcessStatus(stat) == OfLetter(UpperChar(stat[0]))
  {
    assert |ToLower(stat)| == |stat|;
  }

  /** The client agrees with the newer server: it keeps the status name the
      server computed from the STAT column. */
  lemma ClientKeepsServerStatus(stat: string)
    ensures Name(MapProcessStatus(LinuxParser.StatusOfStat(stat))) == LinuxParser.StatusOfStat(stat)
  {
    var sent := LinuxParser.StatusOfStat(stat);
    var st :| st in {Running, Sleeping, Stopped, Zombie, DiskSleep, Idle, Unknown} && Name(st) == sent;
    MapProcessStatusOfName(st);
  }

  /** The client agrees with the newer server on a raw STAT code the older
      server passes through: decoding it on either side gives one status. */
  lemma ClientDecodesRawStatLikeServer(stat: string)
    requires FromName(ToLower(stat)).None?
    ensures Name(MapProcessStatus(stat)) == LinuxParser.StatusOfStat(stat)
  {
  }

  // ---------------------------------------------------------------------
  // The older processes page

  /** The four statuses the older page's badge knows. */
  datatype BadgeStatus = BadgeRunning | BadgeSleeping | BadgeStopped | BadgeZombie

  /** The badge's name for a status. */
  function BadgeName(st: BadgeStatus): string {
    match st
    case BadgeRunning => "running"
    case BadgeSleeping => "sleeping"
    case BadgeStopped => "stopped"
    case BadgeZombie => "zombie"
  }

  /** `mapStatus(status)`: running and idle show as running, stopped and
      dead as stopped, zombie as zombie, and everything else as sleeping. */
  function MapStatus(status: string): (r: BadgeStatus)
    ensures r == BadgeRunning <==> ToLower(status) in {"running", "idle"}
    ensures r == BadgeStopped <==> ToLower(status) in {"stopped", "dead"}
    ensures r == BadgeZombie <==> ToLower(status) == "zombie"
  {
    var s := ToLower(status);
    if s in ["running", "idle"] then BadgeRunning
    else if s in ["sleeping", "waiting", "blocked", "paging", "unknown"] then BadgeSleeping
    else if s in ["stopped", "dead"] then BadgeStopped
    else if s == "zombie" then BadgeZombie
    else BadgeSleeping
  }

  /** A raw `R` code from the older server is shown as sleeping, and an
      idle process as running. */
  lemma MapStatusExamples()
    ensures MapStatus("R") == BadgeSleeping
    ensures MapStatus("Idle") == BadgeRunning
    ensures MapStatus("disk-sleep") == BadgeSleeping
  {
    assert ToLower("R") == "r";
    assert ToLower("Idle") == "idle";
    assert ToLower("disk-sleep") == "disk-sleep";
  }
}

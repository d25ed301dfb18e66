/** The process lists of the client pages and their search box. Every
    processes page (`hooks/use-processes.ts`,
    `features/system-monitor/pages/processes.tsx`, `pages/Processes.tsx`)
    turns the socket's processes into its own rows and filters them with
    the same rule: a blank query keeps everything, any other query,
    lower-cased but not trimmed, must occur in the pid, the lower-cased
    name or the lower-cased user. */
module ProcessSearch {
  import opened Text
  import opened Lists
  import opened ProcessStatuses

  /** A process as the socket delivers it. */
  datatype SystemProcess = SystemProcess(pid: int, name: string, user: string, status: string, cpu: real, memory: real)

  /** A row of `useProcesses` (status decoded by `mapProcessStatus`). */
  datatype ClientProcess = ClientProcess(pid: int, name: string, user: string, status: ProcessStatus, cpu: real, mem: real)

  /** A row of the older processes page (status shown on a four-valued
      badge). */
  datatype BadgeProcess = BadgeProcess(pid: int, name: string, user: string, status: BadgeStatus, cpu: real, memory: real)

  /** `!query.trim()`. */
  predicate IsBlank(query: string) {
    Trim(query) == ""
  }

  /** The shared search rule for one process. */
  predicate Matches(pid: int, name: string, user: string, query: string) {
    var q := ToLower(query);
    Contains(IntToString(pid), q) || Contains(ToLower(name), q) || Contains(ToLower(user), q)
  }

  /** The search rule as a test on a row, given how to read the row's
      pid, name and user. */
  function Keeps<P>(key: P -> (int, string, string), query: string): P -> bool {
    (p: P) => Matches(key(p).0, key(p).1, key(p).2, query)
  }

  /** The search box over any kind of row. */
  function Search<P>(rows: seq<P>, key: P -> (int, string, string), query: string): (r: seq<P>)
    ensures IsBlank(query) ==> r == rows
    ensures |r| <= |rows| && multiset(r) <= multiset(rows)
    ensures !IsBlank(query) ==> forall k :: 0 <= k < |r| ==> Matches(key(r[k]).0, key(r[k]).1, key(r[k]).2, query)
    ensures forall k :: 0 <= k < |rows| && Matches(key(rows[k]).0, key(rows[k]).1, key(rows[k]).2, query) ==> rows[k] in r
  {
    if IsBlank(query) then rows else Filter(rows, Keeps(key, query))
  }

  /** Searching distributes over a split of the list, so the kept rows
      stay in their order. */
  lemma SearchAppend<P>(a: seq<P>, b: seq<P>, key: P -> (int, string, string), query: string)
    ensures Search(a + b, key, query) == Search(a, key, query) + Search(b, key, query)
  {
    if !IsBlank(query) {
      FilterAppend(a, b, Keeps(key, query));
    }
  }

  /** Digits and '-' are unchanged by lower-casing. */
  lemma IntToStringLower(n: int)
    ensures ToLower(IntToString(n)) == IntToString(n)
  {
    var s := IntToString(n);
    var m: nat := if n < 0 then -n else n;
    assert AllDigits(NatToString(m));
    forall i | 0 <= i < |s|
      ensures LowerChar(s[i]) == s[i]
    {
      if n < 0 && i > 0 {
        assert s[i] == NatToString(m)[i - 1];
      }
    }
  }

  /** Typing a process's pid finds it. */
  lemma SearchFindsPid<P>(rows: seq<P>, key: P -> (int, string, string), k: nat)
    requires k < |rows|
    ensures rows[k] in Search(rows, key, IntToString(key(rows[k]).0))
  {
    var s := IntToString(key(rows[k]).0);
    IntToStringLower(key(rows[k]).0);
    assert StartsWith(s, s);
  }

  /** A pattern longer than the text never occurs in it. */
  lemma LongerNotContained(s: string, sub: string)
    requires |sub| > |s|
    ensures !Contains(s, sub)
  {
    ContainsAt(s, sub);
  }

  /** Spaces around a non-blank query are part of what is searched for: a
      process's own name with a trailing space, as in "chrome ", misses the
      process named "chrome" whenever its user and pid are no longer than
      its name. */
  lemma QueryNotTrimmed(pid: int, name: string, user: string)
    requires name != "" && !IsSpace(name[0])
    requires |user| <= |name| && |IntToString(pid)| <= |name|
    ensures !IsBlank(name + " ")
    ensures !Matches(pid, name, user, name + " ")
  {
    var query := name + " ";
    assert name[0] in query;
    TrimKeepsNonSpace(query, name[0]);
    var q := ToLower(query);
    LongerNotContained(ToLower(name), q);
    LongerNotContained(ToLower(user), q);
    LongerNotContained(IntToString(pid), q);
  }

  // ---------------------------------------------------------------------
  // The rows of each page

  function SystemKey(p: SystemProcess): (int, string, string) {
    (p.pid, p.name, p.user)
  }

  /** The hook's row for one process: the status decoded, everything else
      carried over. */
  function ClientOf(p: SystemProcess): (c: ClientProcess)
    ensures (c.pid, c.name, c.user, c.cpu, c.mem) == (p.pid, p.name, p.user, p.cpu, p.memory)
    ensures c.status == MapProcessStatus(p.status)
  {
    ClientProcess(p.pid, p.name, p.user, MapProcessStatus(p.status), p.cpu, p.memory)
  }

  /** The older page's row for one process, with the badge status. */
  function BadgeOf(p: SystemProcess): (b: BadgeProcess)
    ensures (b.pid, b.name, b.user, b.cpu, b.memory) == (p.pid, p.name, p.user, p.cpu, p.memory)
    ensures b.status == MapStatus(p.status)
  {
    BadgeProcess(p.pid, p.name, p.user, MapStatus(p.status), p.cpu, p.memory)
  }

  /** `clientProcesses` of `useProcesses`: one row per process, in order. */
  function ClientProcesses(ps: seq<SystemProcess>): (r: seq<ClientProcess>)
    ensures |r| == |ps| && forall k :: 0 <= k < |ps| ==> r[k] == ClientOf(ps[k])
  {
    Map(ps, ClientOf)
  }

  /** `clientProcesses` of the older page, one row per process, in order. */
  function BadgeProcesses(ps: seq<SystemProcess>): (r: seq<BadgeProcess>)
    ensures |r| == |ps| && forall k :: 0 <= k < |ps| ==> r[k] == BadgeOf(ps[k])
  {
    Map(ps, BadgeOf)
  }

  function ClientKey(p: ClientProcess): (int, string, string) {
    (p.pid, p.name, p.user)
  }

  function BadgeKey(p: BadgeProcess): (int, string, string) {
    (p.pid, p.name, p.user)
  }

  /** `filteredProcesses` of `useProcesses`. */
  function FilteredProcesses(ps: seq<SystemProcess>, query: string): (r: seq<ClientProcess>)
    ensures IsBlank(query) ==> r == ClientProcesses(ps)
    ensures forall k :: 0 <= k < |ps| && Matches(ps[k].pid, ps[k].name, ps[k].user, query) ==>
      ClientOf(ps[k]) in r
    ensures !IsBlank(query) ==> forall k :: 0 <= k < |r| ==> Matches(r[k].pid, r[k].name, r[k].user, query)
  {
    Search(ClientProcesses(ps), ClientKey, query)
  }

  /** Decoding the rows and searching them commute: the hook keeps the
      rows of exactly the processes the search keeps. */
  lemma ClientSearchCommutes(ps: seq<SystemProcess>, query: string)
    ensures FilteredProcesses(ps, query) == ClientProcesses(Search(ps, SystemKey, query))
  {
    if !IsBlank(query) {
      assert forall p :: ClientKey(ClientOf(p)) == SystemKey(p);
      FilterMap(ps, ClientOf, Keeps(ClientKey, query), Keeps(SystemKey, query));
    }
  }

  /** The same for the older page's rows. */
  lemma BadgeSearchCommutes(ps: seq<SystemProcess>, query: string)
    ensures Search(BadgeProcesses(ps), BadgeKey, query) == BadgeProcesses(Search(ps, SystemKey, query))
  {
    if !IsBlank(query) {
      assert forall p :: BadgeKey(BadgeOf(p)) == SystemKey(p);
      FilterMap(ps, BadgeOf, Keeps(BadgeKey, query), Keeps(SystemKey, query));
    }
  }

  /** Both pages show the same processes for the same query, in the same
      order; only the status shown differs. */
  lemma PagesAgreeOnSearch(ps: seq<SystemProcess>, query: string)
    ensures |Search(BadgeProcesses(ps), BadgeKey, query)| == |FilteredProcesses(ps, query)|
    ensures forall k :: 0 <= k < |FilteredProcesses(ps, query)| ==>
      FilteredProcesses(ps, query)[k].pid == Search(BadgeProcesses(ps), BadgeKey, query)[k].pid
  {
    ClientSearchCommutes(ps, query);
    BadgeSearchCommutes(ps, query);
  }
}

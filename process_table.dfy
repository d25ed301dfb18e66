/** The two sortable process tables of the client: the older one
    (`modules/system-monitor/components/processes/process-table.tsx`, rows
    with a badge status and an ACTIONS column that can be clicked) and the
    newer one (`pages/processes/process-table.part.tsx`, rows of
    `useProcesses`). Both start sorted by CPU, descending, toggle the
    direction like the generic table, lower-case string fields and compare
    with `<` and `>`. */
module ProcessTables {
  import opened Wrappers
  import opened Text
  import opened Lists
  import opened ProcessStatuses
  import opened ProcessSearch
  import opened DataTable

  /** The columns a table can be sorted by; only the older table has
      `actions`. */
  datatype SortField = ByPid | ByName | ByUser | ByStatus | ByCpu | ByMemory | ByActions

  /** The comparator on the two cells read from the rows: `-1` or `1` by
      `<` and `>` in the direction of the sort, and `0` when neither holds. */
  function CompareFields(a: Value, b: Value, order: Order): int {
    if Less(a, b) then (if order == Asc then -1 else 1)
    else if Less(b, a) then (if order == Asc then 1 else -1)
    else 0
  }

  /** Rows compared by one cell each. */
  function ByKey<P>(value: P -> Value, order: Order): (P, P) -> int {
    (a: P, b: P) => CompareFields(value(a), value(b), order)
  }

  /** On cells that are never empty the comparator is one `sort` can use. */
  lemma ByKeyConsistent<P(!new)>(value: P -> Value, order: Order)
    requires forall p :: !value(p).Missing?
    ensures Consistent(ByKey(value, order))
  {
    var cmp := ByKey(value, order);
    forall a: P, b: P | cmp(a, b) > 0
      ensures cmp(b, a) < 0
    {
      LessOrder(value(a), value(b), value(a));
    }
    forall a: P, b: P, c: P | cmp(a, b) <= 0 && cmp(b, c) <= 0
      ensures cmp(a, c) <= 0
    {
      var x, y, z := value(a), value(b), value(c);
      LessOrder(x, y, z);
      LessOrder(z, x, y);
      LessOrder(y, z, x);
      LessOrder(x, z, y);
      LessOrder(z, y, x);
      LessOrder(y, x, z);
    }
  }

  /** A table sorted by a never-empty cell is a permutation of the input
      in which, ascending, no cell is followed by a smaller one and,
      descending, none by a larger one. */
  lemma SortByKeyOrdered<P(!new)>(s: seq<P>, value: P -> Value, order: Order)
    requires forall p :: !value(p).Missing?
    ensures multiset(Sort(s, ByKey(value, order))) == multiset(s)
    ensures var r := Sort(s, ByKey(value, order));
      forall i, j :: 0 <= i < j < |r| ==>
        && (order == Asc ==> !Less(value(r[j]), value(r[i])))
        && (order == Desc ==> !Less(value(r[i]), value(r[j])))
  {
    var cmp := ByKey(value, order);
    ByKeyConsistent(value, order);
    SortSorted(s, cmp);
    var r := Sort(s, cmp);
    forall i, j | 0 <= i < j < |r|
      ensures order == Asc ==> !Less(value(r[j]), value(r[i]))
      ensures order == Desc ==> !Less(value(r[i]), value(r[j]))
    {
      assert cmp(r[i], r[j]) <= 0;
      LessOrder(value(r[i]), value(r[j]), value(r[i]));
    }
  }

  // ---------------------------------------------------------------------
  // The older table

  /** The cell of a badge row a field sorts by; strings are lower-cased.
      The `actions` column is never read (its comparator is `0`). */
  function BadgeCell(field: SortField): BadgeProcess -> Value {
    (p: BadgeProcess) =>
      match field
      case ByPid => Num(p.pid as real)
      case ByName => Str(ToLower(p.name))
      case ByUser => Str(ToLower(p.user))
      case ByStatus => Str(ToLower(BadgeName(p.status)))
      case ByCpu => Num(p.cpu)
      case ByMemory => Num(p.memory)
      case ByActions => Num(0.0)
  }

  /** The older table's comparator: everything ties for `actions`. */
  function BadgeCompare(field: SortField, order: Order): (BadgeProcess, BadgeProcess) -> int {
    if field == ByActions then (a: BadgeProcess, b: BadgeProcess) => 0
    else ByKey(BadgeCell(field), order)
  }

  /** `sortedProcesses` of the older table. */
  function SortedBadgeProcesses(processes: seq<BadgeProcess>, field: SortField, order: Order): (r: seq<BadgeProcess>)
    ensures multiset(r) == multiset(processes) && |r| == |processes|
    ensures field == ByActions ==> r == processes
  {
    if field == ByActions then
      assert SortedBy(processes, BadgeCompare(field, order));
      SortKeepsSorted(processes, BadgeCompare(field, order));
      processes
    else Sort(processes, BadgeCompare(field, order))
  }

  /** Sorting by any other column orders the rows by that column. */
  lemma SortedBadgeProcessesOrdered(processes: seq<BadgeProcess>, field: SortField, order: Order)
    requires field != ByActions
    ensures var r := SortedBadgeProcesses(processes, field, order);
      forall i, j :: 0 <= i < j < |r| ==>
        && (order == Asc ==> !Less(BadgeCell(field)(r[j]), BadgeCell(field)(r[i])))
        && (order == Desc ==> !Less(BadgeCell(field)(r[i]), BadgeCell(field)(r[j])))
  {
    SortByKeyOrdered(processes, BadgeCell(field), order);
  }

  /** Names and users that differ only in letter case tie. */
  lemma BadgeCaseInsensitive(a: BadgeProcess, b: BadgeProcess, order: Order)
    ensures ToLower(a.name) == ToLower(b.name) ==> BadgeCompare(ByName, order)(a, b) == 0
    ensures ToLower(a.user) == ToLower(b.user) ==> BadgeCompare(ByUser, order)(a, b) == 0
  {
    StrLessIrreflexive(ToLower(a.name));
    StrLessIrreflexive(ToLower(a.user));
  }

  /** The older table's sort state: CPU, descending, at first. */
  class BadgeProcessTable {
    var orderBy: SortField
    var order: Order

    constructor()
      ensures orderBy == ByCpu && order == Desc
    {
      orderBy := ByCpu;
      order := Desc;
    }

    /** `handleSort(field)`. */
    method HandleSort(field: SortField)
      modifies this
      ensures orderBy == field
      ensures order == NextOrder(Some(old(orderBy)), old(order), field)
    {
      order := NextOrder(Some(orderBy), order, field);
      orderBy := field;
    }

    /** The rows in the current sort. */
    function Rows(processes: seq<BadgeProcess>): (r: seq<BadgeProcess>)
      reads this
      ensures multiset(r) == multiset(processes)
      ensures orderBy == ByActions ==> r == processes
    {
      SortedBadgeProcesses(processes, orderBy, order)
    }
  }

  /** A fresh older table lists the busiest process first; clicking CPU
      then sorts ascending, clicking it again descending, and clicking
      ACTIONS keeps the rows as they came. */
  method BadgeTableScenario(processes: seq<BadgeProcess>) returns (first: seq<BadgeProcess>, clicks: (Order, Order), afterActions: seq<BadgeProcess>)
    ensures forall i, j :: 0 <= i < j < |first| ==> !Less(Num(first[i].cpu), Num(first[j].cpu))
    ensures clicks == (Asc, Desc)
    ensures afterActions == processes
  {
    var table := new BadgeProcessTable();
    first := table.Rows(processes);
    SortedBadgeProcessesOrdered(processes, ByCpu, Desc);
    table.HandleSort(ByCpu);
    var once := table.order;
    table.HandleSort(ByCpu);
    clicks := (once, table.order);
    table.HandleSort(ByActions);
    afterActions := table.Rows(processes);
  }

  // ---------------------------------------------------------------------
  // The newer table

  /** The cell of a `useProcesses` row a field sorts by; strings are
      lower-cased. The newer table has no `actions` field. */
  function ClientCell(field: SortField): ClientProcess -> Value
    requires field != ByActions
  {
    (p: ClientProcess) =>
      match field
      case ByPid => Num(p.pid as real)
      case ByName => Str(ToLower(p.name))
      case ByUser => Str(ToLower(p.user))
      case ByStatus => Str(ToLower(ProcessStatuses.Name(p.status)))
      case ByCpu => Num(p.cpu)
      case ByMemory => Num(p.mem)
  }

  /** `sortedProcesses` of the newer table: a permutation ordered by the
      column in the direction of the sort. */
  function SortedClientProcesses(processes: seq<ClientProcess>, field: SortField, order: Order): (r: seq<ClientProcess>)
    requires field != ByActions
    ensures multiset(r) == multiset(processes) && |r| == |processes|
    ensures forall i, j :: 0 <= i < j < |r| ==>
      && (order == Asc ==> !Less(ClientCell(field)(r[j]), ClientCell(field)(r[i])))
      && (order == Desc ==> !Less(ClientCell(field)(r[i]), ClientCell(field)(r[j])))
  {
    SortByKeyOrdered(processes, ClientCell(field), order);
    Sort(processes, ByKey(ClientCell(field), order))
  }

  /** A header cell of the newer table. */
  datatype HeadCell = HeadCell(id: SortField, caption: string)

  /** The newer table's header; the ACTIONS cell borrows `pid` as its id. */
  const ClientHeadCells: seq<HeadCell> := [
    HeadCell(ByPid, "PID"), HeadCell(ByName, "PROCESS NAME"), HeadCell(ByUser, "USER"),
    HeadCell(ByStatus, "STATUS"), HeadCell(ByCpu, "CPU %"), HeadCell(ByMemory, "MEM %"),
    HeadCell(ByPid, "ACTIONS")
  ]

  /** Whether a header cell gets a sort control. */
  predicate HasSortControl(cell: HeadCell) {
    cell.caption != "ACTIONS"
  }

  /** Whether some header cell with a sort control sorts by `f`. */
  predicate Offered(cells: seq<HeadCell>, f: SortField) {
    exists k :: 0 <= k < |cells| && HasSortControl(cells[k]) && cells[k].id == f
  }

  /** The ACTIONS header cannot be clicked, so every click sorts by one of
      the six data columns, and each of those has a control. */
  lemma ClientHeaderClicks()
    ensures forall k :: 0 <= k < |ClientHeadCells| && HasSortControl(ClientHeadCells[k]) ==>
      ClientHeadCells[k].id != ByActions && k < 6
    ensures forall f: SortField :: Offered(ClientHeadCells, f) <==> f != ByActions
  {
    forall f: SortField
      ensures Offered(ClientHeadCells, f) <==> f != ByActions
    {
      if f != ByActions {
        var k := match f
          case ByPid => 0 case ByName => 1 case ByUser => 2
          case ByStatus => 3 case ByCpu => 4 case _ => 5;
        assert HasSortControl(ClientHeadCells[k]) && ClientHeadCells[k].id == f;
      }
    }
  }

  /** The newer table's sort state: CPU, descending, at first; its header
      never offers `actions`. */
  class ClientProcessTable {
    var orderBy: SortField
    var order: Order

    ghost predicate Valid()
      reads this
    {
      orderBy != ByActions
    }

    constructor()
      ensures Valid() && orderBy == ByCpu && order == Desc
    {
      orderBy := ByCpu;
      order := Desc;
    }

    /** `handleSort(field)` for a field the header offers. */
    method HandleSort(field: SortField)
      requires field != ByActions
      modifies this
      ensures Valid()
      ensures orderBy == field
      ensures order == NextOrder(Some(old(orderBy)), old(order), field)
    {
      order := NextOrder(Some(orderBy), order, field);
      orderBy := field;
    }

    /** The rows in the current sort. */
    function Rows(processes: seq<ClientProcess>): (r: seq<ClientProcess>)
      requires Valid()
      reads this
      ensures multiset(r) == multiset(processes)
    {
      SortedClientProcesses(processes, orderBy, order)
    }
  }
}

/** The client's generic data table (`components/table/table.component.tsx`):
    the sort state and its toggle, the comparator that puts empty cells
    last, row selection and the header checkbox. Cells are compared with
    JavaScript's `<` on numbers and on strings; the order of strings is the
    order of their characters' code points. */
module DataTable {
  import opened Wrappers
  import opened Lists

  /** A cell: `null`/`undefined`, a number or a string. */
  datatype Value = Missing | Num(x: real) | Str(s: string)

  /** A row, read by column id; an absent column reads as `undefined`. */
  type Row = map<string, Value>

  function Cell(row: Row, key: string): Value {
    if key in row then row[key] else Missing
  }

  // ---------------------------------------------------------------------
  // The order of cells

  /** `a < b` on strings: lexicographic on code points. */
  predicate StrLess(a: string, b: string)
    decreases |a|
  {
    if |a| == 0 then |b| > 0
    else if |b| == 0 then false
    else if a[0] != b[0] then a[0] < b[0]
    else StrLess(a[1..], b[1..])
  }

  lemma {:induction false} StrLessIrreflexive(a: string)
    ensures !StrLess(a, a)
    decreases |a|
  {
    if |a| > 0 {
      StrLessIrreflexive(a[1..]);
    }
  }

  lemma {:induction false} StrLessTransitive(a: string, b: string, c: string)
    requires StrLess(a, b) && StrLess(b, c)
    ensures StrLess(a, c)
    decreases |a|
  {
    if |a| > 0 && a[0] == b[0] && b[0] == c[0] {
      StrLessTransitive(a[1..], b[1..], c[1..]);
    }
  }

  lemma {:induction false} StrLessTotal(a: string, b: string)
    requires a != b
    ensures StrLess(a, b) || StrLess(b, a)
    decreases |a|
  {
    if |a| > 0 && |b| > 0 && a[0] == b[0] {
      assert a == [a[0]] + a[1..] && b == [b[0]] + b[1..];
      StrLessTotal(a[1..], b[1..]);
    }
  }

  /** `a < b` on two present cells of one kind. Between a number and a
      string JavaScript converts the string to a number; here numbers come
      first, which makes the order total. */
  predicate Less(a: Value, b: Value) {
    match (a, b)
    case (Num(x), Num(y)) => x < y
    case (Str(s), Str(t)) => StrLess(s, t)
    case (Num(_), Str(_)) => true
    case _ => false
  }

  /** `Less` is a strict total order on present cells. */
  lemma LessOrder(a: Value, b: Value, c: Value)
    ensures !Less(a, a)
    ensures Less(a, b) && Less(b, c) ==> Less(a, c)
    ensures a != b && !a.Missing? && !b.Missing? ==> Less(a, b) || Less(b, a)
  {
    if a.Str? {
      StrLessIrreflexive(a.s);
    }
    if a.Str? && b.Str? && c.Str? && Less(a, b) && Less(b, c) {
      StrLessTransitive(a.s, b.s, c.s);
    }
    if a.Str? && b.Str? && a != b {
      StrLessTotal(a.s, b.s);
    }
  }

  // ---------------------------------------------------------------------
  // Sorting

  datatype Order = Asc | Desc

  /** `handleSort(property)`: the clicked column becomes the sort column,
      descending when it already was, ascending, and ascending otherwise. */
  function NextOrder<F(==)>(orderBy: Option<F>, order: Order, clicked: F): (o: Order)
    ensures o == Desc <==> orderBy == Some(clicked) && order == Asc
  {
    if orderBy == Some(clicked) && order == Asc then Desc else Asc
  }

  /** Clicking one column repeatedly alternates the direction, starting
      ascending. */
  lemma ClickingAlternates<F>(orderBy: Option<F>, clicked: F)
    requires orderBy != Some(clicked)
    ensures NextOrder(orderBy, Desc, clicked) == Asc && NextOrder(orderBy, Asc, clicked) == Asc
    ensures NextOrder(Some(clicked), Asc, clicked) == Desc
    ensures NextOrder(Some(clicked), NextOrder(Some(clicked), Asc, clicked), clicked) == Asc
  {
  }

  /** The table's sort state (`orderBy`, `order`). */
  class SortState<F(==)> {
    var orderBy: Option<F>
    var order: Order

    /** The state starts from the `initialOrderBy` and `initialOrder`
        props (ascending unless given). */
    constructor(initialOrderBy: Option<F>, initialOrder: Order)
      ensures orderBy == initialOrderBy && order == initialOrder
    {
      orderBy := initialOrderBy;
      order := initialOrder;
    }

    /** `handleSort(property)`. */
    method HandleSort(clicked: F)
      modifies this
      ensures orderBy == Some(clicked)
      ensures order == NextOrder(old(orderBy), old(order), clicked)
    {
      order := NextOrder(orderBy, order, clicked);
      orderBy := Some(clicked);
    }
  }

  /** The table's comparator on two cells: equal cells tie, an empty cell
      goes after anything, and present cells compare by `<`, negated for
      a descending sort. */
  function CompareCells(a: Value, b: Value, order: Order): (c: int)
    ensures c == 0 <==> a == b
    ensures a != b && a.Missing? ==> c == 1
    ensures a != b && !a.Missing? && b.Missing? ==> c == -1
  {
    if a == b then 0
    else if a.Missing? then 1
    else if b.Missing? then -1
    else
      var comparison := if Less(a, b) then -1 else 1;
      if order == Asc then comparison else -comparison
  }

  /** A cell before `null` and `undefined` are merged: the comparator as
      written tests them with `===`, which keeps them apart. */
  datatype RawValue = Null | Undefined | RawNum(x: real) | RawStr(s: string)

  predicate IsNullish(v: RawValue) {
    v.Null? || v.Undefined?
  }

  /** The cell the rest of the table works with: both empty values become
      `Missing`. */
  function Normalize(v: RawValue): (r: Value)
    ensures r.Missing? <==> IsNullish(v)
  {
    match v
    case Null => Missing
    case Undefined => Missing
    case RawNum(x) => Num(x)
    case RawStr(s) => Str(s)
  }

  /** The comparator exactly as written. It agrees with `CompareCells` on
      the merged cells except for a `null` cell met by an `undefined` one:
      the two are not `===`, so whichever comes first is put after the
      other. */
  function CompareCellsAsWritten(a: RawValue, b: RawValue, order: Order): (c: int)
    ensures !(IsNullish(a) && IsNullish(b) && a != b) ==> c == CompareCells(Normalize(a), Normalize(b), order)
    ensures IsNullish(a) && IsNullish(b) && a != b ==> c == 1
  {
    if a == b then 0
    else if IsNullish(a) then 1
    else if IsNullish(b) then -1
    else
      var comparison := if Less(Normalize(a), Normalize(b)) then -1 else 1;
      if order == Asc then comparison else -comparison
  }

  /** As written, the comparator is not one `sort` can rely on: a `null`
      cell and an `undefined` one are each put after the other. */
  lemma CompareCellsAsWrittenInconsistent(order: Order)
    ensures !Consistent((a: RawValue, b: RawValue) => CompareCellsAsWritten(a, b, order))
  {
    var cmp := (a: RawValue, b: RawValue) => CompareCellsAsWritten(a, b, order);
    assert cmp(Null, Undefined) > 0 && cmp(Undefined, Null) > 0;
  }

  /** When one cell may stay before another: equal, the second empty, or
      both present and in the sort's direction. */
  predicate NotAfter(a: Value, b: Value, order: Order) {
    a == b || b.Missing? ||
    (!a.Missing? && if order == Asc then Less(a, b) else Less(b, a))
  }

  lemma CompareCellsNotAfter(a: Value, b: Value, order: Order)
    ensures CompareCells(a, b, order) <= 0 <==> NotAfter(a, b, order)
    ensures CompareCells(a, b, order) > 0 ==> CompareCells(b, a, order) < 0
  {
    LessOrder(a, b, a);
    LessOrder(b, a, b);
  }

  lemma NotAfterTransitive(a: Value, b: Value, c: Value, order: Order)
    requires NotAfter(a, b, order) && NotAfter(b, c, order)
    ensures NotAfter(a, c, order)
  {
    LessOrder(a, b, c);
    LessOrder(c, b, a);
  }

  /** The comparator `sortedData` passes to `sort`. */
  function RowCompare(key: string, order: Order): (Row, Row) -> int {
    (a: Row, b: Row) => CompareCells(Cell(a, key), Cell(b, key), order)
  }

  /** The comparator meets what `sort` needs for a defined result. */
  lemma RowCompareConsistent(key: string, order: Order)
    ensures Consistent(RowCompare(key, order))
  {
    var cmp := RowCompare(key, order);
    forall a: Row, b: Row | cmp(a, b) > 0
      ensures cmp(b, a) < 0
    {
      CompareCellsNotAfter(Cell(a, key), Cell(b, key), order);
    }
    forall a: Row, b: Row, c: Row | cmp(a, b) <= 0 && cmp(b, c) <= 0
      ensures cmp(a, c) <= 0
    {
      CompareCellsNotAfter(Cell(a, key), Cell(b, key), order);
      CompareCellsNotAfter(Cell(b, key), Cell(c, key), order);
      CompareCellsNotAfter(Cell(a, key), Cell(c, key), order);
      NotAfterTransitive(Cell(a, key), Cell(b, key), Cell(c, key), order);
    }
  }

  /** A column of the table; `sortable` is `undefined`, `true` or `false`. */
  datatype Column = Column(id: string, sortable: Option<bool>)

  function HasId(id: string): Column -> bool {
    (c: Column) => c.id == id
  }

  /** Whether `sortedData` sorts at all: a sort column is set, the table has
      it, and it is not marked unsortable. */
  predicate SortsBy(columns: seq<Column>, orderBy: Option<string>) {
    orderBy.Some? && orderBy.value != "" &&
    match FirstIndex(columns, HasId(orderBy.value))
    case None => false
    case Some(i) => columns[i].sortable != Some(false)
  }

  /** `sortedData`: a sorted copy, or the data itself. */
  function SortedData(data: seq<Row>, columns: seq<Column>, orderBy: Option<string>, order: Order): (r: seq<Row>)
    ensures multiset(r) == multiset(data) && |r| == |data|
    ensures !SortsBy(columns, orderBy) ==> r == data
    ensures SortsBy(columns, orderBy) ==> r == Sort(data, RowCompare(orderBy.value, order))
  {
    if SortsBy(columns, orderBy) then Sort(data, RowCompare(orderBy.value, order)) else data
  }

  /** The sorted table keeps every empty cell after every present one, in
      both directions, and orders the present cells: ascending never puts a
      smaller cell after a larger one, descending never a larger after a
      smaller. */
  lemma SortedDataOrdered(data: seq<Row>, columns: seq<Column>, key: string, order: Order)
    requires SortsBy(columns, Some(key))
    ensures var r := SortedData(data, columns, Some(key), order);
      forall i, j :: 0 <= i < j < |r| ==>
        && (Cell(r[i], key).Missing? ==> Cell(r[j], key).Missing?)
        && (order == Asc && !Cell(r[j], key).Missing? ==> !Less(Cell(r[j], key), Cell(r[i], key)))
        && (order == Desc && !Cell(r[j], key).Missing? ==> !Less(Cell(r[i], key), Cell(r[j], key)))
  {
    var cmp := RowCompare(key, order);
    RowCompareConsistent(key, order);
    SortSorted(data, cmp);
    var r := SortedData(data, columns, Some(key), order);
    forall i, j | 0 <= i < j < |r|
      ensures Cell(r[i], key).Missing? ==> Cell(r[j], key).Missing?
      ensures order == Asc && !Cell(r[j], key).Missing? ==> !Less(Cell(r[j], key), Cell(r[i], key))
      ensures order == Desc && !Cell(r[j], key).Missing? ==> !Less(Cell(r[i], key), Cell(r[j], key))
    {
      var a, b := Cell(r[i], key), Cell(r[j], key);
      assert cmp(r[i], r[j]) <= 0;
      CompareCellsNotAfter(a, b, order);
      LessOrder(a, b, a);
      LessOrder(b, a, b);
    }
  }

  /** An unknown column, or one marked unsortable, leaves the data as it
      is. */
  lemma UnsortableColumnKeepsOrder(data: seq<Row>, columns: seq<Column>, key: string, order: Order)
    requires forall k :: 0 <= k < |columns| && columns[k].id == key ==> columns[k].sortable == Some(false)
    ensures SortedData(data, columns, Some(key), order) == data
  {
  }

  // ---------------------------------------------------------------------
  // Selection

  /** The new selection after a row's checkbox: an absent id is appended,
      a present one removed everywhere it occurs. */
  function ToggledSelection<Id(==,!new)>(selected: seq<Id>, id: Id): (r: seq<Id>)
    ensures id !in selected ==> r == selected + [id]
    ensures forall x :: x in r <==> (if x == id then id !in selected else x in selected)
  {
    if id !in selected then selected + [id]
    else
      var r := Filter(selected, (x: Id) => x != id);
      assert forall x :: x in r ==> x in selected by {
        forall x | x in r
          ensures x in selected
        {
          assert x in multiset(r);
        }
      }
      r
  }

  /** `handleSelectOne(id)`: what is passed to `onSelectionChange`, and
      nothing without a callback. */
  function HandleSelectOne<Id(==,!new)>(hasCallback: bool, selected: seq<Id>, id: Id): (r: Option<seq<Id>>)
    ensures r.Some? <==> hasCallback
    ensures r.Some? ==> r.value == ToggledSelection(selected, id)
  {
    if hasCallback then Some(ToggledSelection(selected, id)) else None
  }

  /** Toggling a row twice restores what is selected. */
  lemma ToggleTwice<Id(!new)>(selected: seq<Id>, id: Id)
    ensures forall x :: x in ToggledSelection(ToggledSelection(selected, id), id) <==> x in selected
  {
  }

  /** `handleSelectAll(event)`: every row's id in data order when checked,
      nothing when unchecked, and no call without a callback. */
  function HandleSelectAll<T, Id>(hasCallback: bool, data: seq<T>, idOf: T -> Id, checked: bool): (r: Option<seq<Id>>)
    ensures r.Some? <==> hasCallback
    ensures r.Some? && checked ==> |r.value| == |data| && forall k :: 0 <= k < |data| ==> r.value[k] == idOf(data[k])
    ensures r.Some? && !checked ==> r.value == []
  {
    if !hasCallback then None
    else if checked then Some(Map(data, idOf))
    else Some([])
  }

  /** The header checkbox: checked when every row is selected (and there
      are rows), indeterminate when some but not all are. */
  function HeaderCheckbox(selectedCount: nat, rowCount: nat): (r: (bool, bool))
    ensures r.0 <==> rowCount > 0 && selectedCount == rowCount
    ensures r.1 <==> 0 < selectedCount < rowCount
  {
    (rowCount > 0 && selectedCount == rowCount, selectedCount > 0 && selectedCount < rowCount)
  }

  /** The header never shows checked and indeterminate at once; after
      select-all the header is checked on a non-empty table, and after
      clearing it is neither. */
  lemma HeaderAfterSelectAll<T, Id>(data: seq<T>, idOf: T -> Id)
    ensures !(HeaderCheckbox(|data|, |data|).0 && HeaderCheckbox(|data|, |data|).1)
    ensures var all := HandleSelectAll(true, data, idOf, true).value;
      HeaderCheckbox(|all|, |data|) == (|data| > 0, false)
    ensures var none := HandleSelectAll(true, data, idOf, false).value;
      HeaderCheckbox(|none|, |data|) == (false, false)
  {
  }
}

/**
 * The generic table (components/ui/DataTable.tsx).
 *
 * What is shown is derived from the data: the rows some column of which
 * contains the search term, a sorted copy of those when a sort key is set,
 * and the current page's slice of the result. The search term, the
 * current page and the sort key and order are the component's state,
 * changed by its handlers.
 */
module DataTable {
  import opened Wrappers
  import opened Strings
  import opened Js
  import opened Sorting
  import opened SortToggle

  /** An item: its properties by name; a missing one reads as undefined. */
  type Row = map<string, Value>

  function Cell(item: Row, key: string): Value {
    if key in item then item[key] else Undefined
  }

  /** A column: the item property it shows and whether its header sorts. */
  datatype Column = Column(key: string, sortable: bool)

  // ---------------------------------------------------------------------
  // Filtering

  /** `value?.toString().toLowerCase().includes(term.toLowerCase())`; null and undefined match nothing. */
  predicate CellMatches(v: Value, term: string) {
    !v.Undefined? && !v.Null? && Contains(ToLower(ToText(v)), ToLower(term))
  }

  predicate RowMatches(item: Row, columns: seq<Column>, term: string) {
    exists i :: 0 <= i < |columns| && CellMatches(Cell(item, columns[i].key), term)
  }

  function KeepMatching(data: seq<Row>, columns: seq<Column>, term: string): seq<Row> {
    if data == [] then []
    else (if RowMatches(data[0], columns, term) then [data[0]] else []) + KeepMatching(data[1..], columns, term)
  }

  /** filteredData: the matching items when searching is on and the term is non-empty, else the data itself. */
  function Filter(data: seq<Row>, columns: seq<Column>, searchable: bool, term: string): seq<Row> {
    if searchable && term != "" then KeepMatching(data, columns, term) else data
  }

  /** Each matching item is kept as often as it occurs, and no other item is kept. */
  lemma {:induction false} KeepMatchingCounts(data: seq<Row>, columns: seq<Column>, term: string)
    ensures forall item :: multiset(KeepMatching(data, columns, term))[item] ==
                           if RowMatches(item, columns, term) then multiset(data)[item] else 0
  {
    if data != [] {
      KeepMatchingCounts(data[1..], columns, term);
      assert data == [data[0]] + data[1..];
      var h := if RowMatches(data[0], columns, term) then [data[0]] else [];
      assert multiset(KeepMatching(data, columns, term)) == multiset(h) + multiset(KeepMatching(data[1..], columns, term));
    }
  }

  /** The matching items are kept and nothing else; KeepMatchingConcat adds that they keep their order. */
  lemma {:induction false} KeepMatchingMeaning(data: seq<Row>, columns: seq<Column>, term: string)
    ensures var r := KeepMatching(data, columns, term);
            |r| <= |data| && (forall item :: item in r <==> item in data && RowMatches(item, columns, term))
    ensures (forall i :: 0 <= i < |data| ==> RowMatches(data[i], columns, term)) ==> KeepMatching(data, columns, term) == data
  {
    if data != [] {
      KeepMatchingMeaning(data[1..], columns, term);
      assert data == [data[0]] + data[1..];
      if forall i :: 0 <= i < |data| ==> RowMatches(data[i], columns, term) {
        assert forall i :: 0 <= i < |data[1..]| ==> RowMatches(data[1..][i], columns, term) by {
          forall i | 0 <= i < |data[1..]| ensures RowMatches(data[1..][i], columns, term) {
            assert data[1..][i] == data[i + 1];
          }
        }
      }
    }
  }

  /** The search splits over a concatenation, and keeps or drops one item by itself: the kept items stay in order. */
  lemma {:induction false} KeepMatchingConcat(a: seq<Row>, b: seq<Row>, columns: seq<Column>, term: string)
    ensures KeepMatching(a + b, columns, term) == KeepMatching(a, columns, term) + KeepMatching(b, columns, term)
    ensures forall item :: KeepMatching([item], columns, term) == if RowMatches(item, columns, term) then [item] else []
  {
    KeepMatchingSplits(a, b, columns, term);
    forall item ensures KeepMatching([item], columns, term) == if RowMatches(item, columns, term) then [item] else [] {
      assert [item][1..] == [];
    }
  }

  lemma {:induction false} KeepMatchingSplits(a: seq<Row>, b: seq<Row>, columns: seq<Column>, term: string)
    ensures KeepMatching(a + b, columns, term) == KeepMatching(a, columns, term) + KeepMatching(b, columns, term)
  {
    if a == [] {
      assert a + b == b;
    } else {
      var h := if RowMatches(a[0], columns, term) then [a[0]] else [];
      assert (a + b)[0] == a[0] && (a + b)[1..] == a[1..] + b;
      KeepMatchingSplits(a[1..], b, columns, term);
      calc {
        KeepMatching(a + b, columns, term);
        h + KeepMatching(a[1..] + b, columns, term);
        h + (KeepMatching(a[1..], columns, term) + KeepMatching(b, columns, term));
        (h + KeepMatching(a[1..], columns, term)) + KeepMatching(b, columns, term);
      }
    }
  }

  /** No term, or searching off, leaves the data as it is; a term keeps exactly the items that match it. */
  lemma FilterMeaning(data: seq<Row>, columns: seq<Column>, searchable: bool, term: string)
    ensures !searchable || term == "" ==> Filter(data, columns, searchable, term) == data
    ensures searchable && term != "" ==>
              forall item :: item in Filter(data, columns, searchable, term) <==>
                             item in data && RowMatches(item, columns, term)
    ensures searchable && term != "" ==>
              forall item :: multiset(Filter(data, columns, searchable, term))[item] ==
                             if RowMatches(item, columns, term) then multiset(data)[item] else 0
  {
    KeepMatchingMeaning(data, columns, term);
    KeepMatchingCounts(data, columns, term);
  }

  // ---------------------------------------------------------------------
  // Sorting

  /**
   * The relational `<` between values of one type (numbers, strings,
   * booleans). Undefined and NaN compare false with everything, as they do
   * in ECMAScript; other mixed-type comparisons are taken as false.
   */
  predicate Less(a: Value, b: Value) {
    match (a, b)
    case (Num(x), Num(y)) => x < y
    case (Str(x), Str(y)) => StrLess(x, y)
    case (Bool(x), Bool(y)) => !x && y
    case _ => false
  }

  /** The sort callback: 0 for `===` values, otherwise ∓1, negated for 'desc'. */
  function Compare(a: Value, b: Value, order: Direction): (c: int)
    ensures c == 0 <==> StrictEquals(a, b)
    ensures c != 0 ==> (c == -1 <==> (Less(a, b) == (order == Asc)))
  {
    if StrictEquals(a, b) then 0
    else
      var comparison := if Less(a, b) then -1 else 1;
      if order == Asc then comparison else -comparison
  }

  /** "May come first" for the sort on `key`: the callback is not positive. */
  function ComesFirst(key: string, order: Direction): (Row, Row) -> bool {
    (a: Row, b: Row) => Compare(Cell(a, key), Cell(b, key), order) <= 0
  }

  /** sortedData: a sorted copy when a key is set, else the filtered list. */
  function SortRows(rows: seq<Row>, key: Option<string>, order: Direction): seq<Row> {
    if key.Some? && key.value != "" then SortBy(rows, ComesFirst(key.value, order)) else rows
  }

  /** Sorting keeps the same items, as many times each. */
  lemma SortRowsPermutes(rows: seq<Row>, key: Option<string>, order: Direction)
    ensures multiset(SortRows(rows, key, order)) == multiset(rows)
    ensures |SortRows(rows, key, order)| == |rows|
  {
    if key.Some? && key.value != "" {
      SortPermutes(rows, ComesFirst(key.value, order));
      SortLength(rows, ComesFirst(key.value, order));
    }
  }

  /** A column whose values are all numbers, or all strings. */
  predicate Uniform(rows: seq<Row>, key: string, numbers: bool) {
    forall i :: 0 <= i < |rows| ==> if numbers then Cell(rows[i], key).Num? else Cell(rows[i], key).Str?
  }

  lemma ComparisonConsistent(key: string, order: Direction, numbers: bool)
    ensures TotalPreorderWithin(ComesFirst(key, order),
                                (r: Row) => if numbers then Cell(r, key).Num? else Cell(r, key).Str?)
  {
    var le := ComesFirst(key, order);
    var ok := (r: Row) => if numbers then Cell(r, key).Num? else Cell(r, key).Str?;
    forall a, b | ok(a) && ok(b) ensures le(a, b) || le(b, a) {
      if !numbers {
        StrLessTrichotomy(Cell(a, key).s, Cell(b, key).s);
      }
    }
    forall a, b, c | ok(a) && ok(b) && ok(c) && le(a, b) && le(b, c) ensures le(a, c) {
      if !numbers {
        var x, y, z := Cell(a, key).s, Cell(b, key).s, Cell(c, key).s;
        StrLessTrichotomy(x, y);
        StrLessTrichotomy(y, z);
        StrLessTrichotomy(x, z);
        if StrLess(x, y) && StrLess(y, z) {
          StrLessTransitive(x, y, z);
        }
        if StrLess(z, y) && StrLess(y, x) {
          StrLessTransitive(z, y, x);
        }
      }
    }
  }

  /** Two values of one type, numbers or strings, in the direction's order. */
  predicate InOrder(a: Value, b: Value, order: Direction) {
    match (a, b)
    case (Num(x), Num(y)) => if order == Asc then x <= y else x >= y
    case (Str(x), Str(y)) => if order == Asc then !StrLess(y, x) else !StrLess(x, y)
    case _ => false
  }

  /**
   * On a column of numbers the sorted rows ascend (or descend) by value;
   * on a column of strings they ascend (or descend) in string order.
   */
  lemma SortedByColumn(rows: seq<Row>, key: string, order: Direction, numbers: bool)
    requires key != "" && Uniform(rows, key, numbers)
    ensures var r := SortRows(rows, Some(key), order);
            forall i, j :: 0 <= i < j < |r| ==> InOrder(Cell(r[i], key), Cell(r[j], key), order)
  {
    ComparisonConsistent(key, order, numbers);
    SortSortedWithin(rows, ComesFirst(key, order), (r: Row) => if numbers then Cell(r, key).Num? else Cell(r, key).Str?);
    var r := SortRows(rows, Some(key), order);
    forall i, j | 0 <= i < j < |r|
      ensures InOrder(Cell(r[i], key), Cell(r[j], key), order)
    {
      assert ComesFirst(key, order)(r[i], r[j]);
      SortRowsPermutes(rows, Some(key), order);
      assert r[i] in multiset(rows) && r[j] in multiset(rows);
      var k :| 0 <= k < |rows| && rows[k] == r[i];
      var l :| 0 <= l < |rows| && rows[l] == r[j];
      if !numbers {
        StrLessTrichotomy(Cell(r[i], key).s, Cell(r[j], key).s);
      }
    }
  }

  /** Rows with `===` keys keep their order. */
  lemma SortKeepsTiesInOrder(rows: seq<Row>, key: string, order: Direction, numbers: bool, k: Row)
    requires key != "" && Uniform(rows, key, numbers)
    requires if numbers then Cell(k, key).Num? else Cell(k, key).Str?
    ensures var le := ComesFirst(key, order);
            TiedWith(SortRows(rows, Some(key), order), le, k) == TiedWith(rows, le, k)
  {
    ComparisonConsistent(key, order, numbers);
    SortStableWithin(rows, ComesFirst(key, order), (r: Row) => if numbers then Cell(r, key).Num? else Cell(r, key).Str?, k);
  }

  // ---------------------------------------------------------------------
  // Pages

  /** `Math.ceil(n / pageSize)`. */
  function TotalPages(n: nat, pageSize: nat): (t: nat)
    requires pageSize >= 1
    ensures n == 0 <==> t == 0
    ensures n > 0 ==> (t - 1) * pageSize < n <= t * pageSize
  {
    (n + pageSize - 1) / pageSize
  }

  /** Array.prototype.slice for non-negative bounds: both are cut back to the length. */
  function Slice(s: seq<Row>, start: nat, end: nat): (r: seq<Row>)
    ensures |r| <= if end >= start then end - start else 0
    ensures start <= end <= |s| ==> r == s[start..end]
  {
    var b := if end < |s| then end else |s|;
    var a := if start < b then start else b;
    s[a..b]
  }

  /** paginatedData: the rows from (page − 1)·pageSize up to, not including, page·pageSize. */
  function PageRows(rows: seq<Row>, page: nat, pageSize: nat): (r: seq<Row>)
    requires page >= 1 && pageSize >= 1
    ensures |r| <= pageSize
  {
    Slice(rows, (page - 1) * pageSize, page * pageSize)
  }

  /** Every row lies on exactly the page its index gives, at its offset there, and that page exists. */
  lemma EveryRowOnItsPage(rows: seq<Row>, pageSize: nat, k: nat)
    requires pageSize >= 1 && k < |rows|
    ensures var p := k / pageSize + 1;
            1 <= p <= TotalPages(|rows|, pageSize) && k % pageSize < |PageRows(rows, p, pageSize)|
            && PageRows(rows, p, pageSize)[k % pageSize] == rows[k]
  {
    var p := k / pageSize + 1;
    var t := TotalPages(|rows|, pageSize);
    assert (p - 1) * pageSize + k % pageSize == k;
    assert (t - 1) * pageSize < |rows|;
    if p > t {
      MulMonotone(t, p - 1, pageSize);
      assert false;
    }
    var start, end := (p - 1) * pageSize, p * pageSize;
    assert start <= k < end;
    var r := PageRows(rows, p, pageSize);
    var b := if end < |rows| then end else |rows|;
    assert r == rows[start..b];
  }

  lemma MulMonotone(a: nat, b: nat, c: nat)
    requires a <= b
    ensures a * c <= b * c
  {
  }

  /** `Math.max(1, Math.min(page, totalPages))`. */
  function Clamp(page: int, totalPages: nat): (r: int)
    ensures r >= 1
    ensures totalPages == 0 ==> r == 1
    ensures totalPages >= 1 ==> r <= totalPages
    ensures 1 <= page <= totalPages ==> r == page
    ensures totalPages >= 1 && page < 1 ==> r == 1
    ensures page > totalPages >= 1 ==> r == totalPages
  {
    var m := if page < totalPages then page else totalPages;
    if m < 1 then 1 else m
  }

  /** The "Showing a to b of n" range while the pager is visible. */
  function Range(page: nat, pageSize: nat, n: nat): (nat, nat)
    requires page >= 1
  {
    var start, end := (page - 1) * pageSize, (page - 1) * pageSize + pageSize;
    (start + 1, if end < n then end else n)
  }

  /** On an existing page the range is non-empty and counts the rows that page holds. */
  lemma RangeCountsPage(rows: seq<Row>, page: nat, pageSize: nat)
    requires pageSize >= 1 && 1 <= page <= TotalPages(|rows|, pageSize)
    ensures var (a, b) := Range(page, pageSize, |rows|);
            1 <= a <= b <= |rows| && b - a + 1 == |PageRows(rows, page, pageSize)|
  {
    var t := TotalPages(|rows|, pageSize);
    MulMonotone(page - 1, t - 1, pageSize);
  }

  // ---------------------------------------------------------------------
  // The component

  class Table {
    const data: seq<Row>
    const columns: seq<Column>
    const searchable: bool
    const pageSize: nat

    var searchTerm: string
    var currentPage: int
    var sortKey: Option<string>
    var sortOrder: Direction

    ghost predicate Valid()
      reads this
    {
      pageSize >= 1 && currentPage >= 1
    }

    /** The initial state: no search, the first page, no sort key, 'asc'. */
    constructor(data: seq<Row>, columns: seq<Column>, searchable: bool, pageSize: nat)
      requires pageSize >= 1
      ensures Valid()
      ensures this.data == data && this.columns == columns && this.searchable == searchable
      ensures this.pageSize == pageSize
      ensures searchTerm == "" && currentPage == 1 && sortKey == None && sortOrder == Asc
    {
      this.data := data;
      this.columns := columns;
      this.searchable := searchable;
      this.pageSize := pageSize;
      searchTerm := "";
      currentPage := 1;
      sortKey := None;
      sortOrder := Asc;
    }

    /** sortedData, derived from the current state. */
    function Rows(): seq<Row>
      reads this
    {
      SortRows(Filter(data, columns, searchable, searchTerm), sortKey, sortOrder)
    }

    function Pages(): nat
      reads this
      requires Valid()
    {
      TotalPages(|Rows()|, pageSize)
    }

    function Shown(): (r: seq<Row>)
      reads this
      requires Valid()
      ensures |r| <= pageSize
    {
      PageRows(Rows(), currentPage, pageSize)
    }

    /** The pager controls are rendered only when there is more than one page. */
    predicate PagerShown()
      reads this
      requires Valid()
    {
      Pages() > 1
    }

    /** The search input's onChange: the term is replaced and the first page shown. */
    method SetSearchTerm(term: string)
      requires Valid()
      modifies this
      ensures Valid()
      ensures searchTerm == term && currentPage == 1
      ensures sortKey == old(sortKey) && sortOrder == old(sortOrder)
    {
      searchTerm := term;
      currentPage := 1;
    }

    /** handleSort: the same key flips the order, another key sorts on it ascending. */
    method HandleSort(key: string)
      requires Valid()
      modifies this
      ensures Valid()
      ensures SortState(sortKey, sortOrder) == SortToggle.HandleSort(SortState(old(sortKey), old(sortOrder)), Some(key), Asc)
      ensures sortKey == Some(key)
      ensures old(sortKey) == Some(key) ==> sortOrder == Flip(old(sortOrder))
      ensures old(sortKey) != Some(key) ==> sortOrder == Asc
      ensures searchTerm == old(searchTerm) && currentPage == old(currentPage)
    {
      if sortKey == Some(key) {
        sortOrder := if sortOrder == Asc then Desc else Asc;
      } else {
        sortKey := Some(key);
        sortOrder := Asc;
      }
    }

    /** A header click sorts only on a sortable column. */
    method ClickHeader(column: Column)
      requires Valid()
      modifies this
      ensures Valid()
      ensures column.sortable ==> sortKey == Some(column.key)
      ensures column.sortable && old(sortKey) == Some(column.key) ==> sortOrder == Flip(old(sortOrder))
      ensures column.sortable && old(sortKey) != Some(column.key) ==> sortOrder == Asc
      ensures !column.sortable ==> sortKey == old(sortKey) && sortOrder == old(sortOrder)
      ensures searchTerm == old(searchTerm) && currentPage == old(currentPage)
    {
      if column.sortable {
        HandleSort(column.key);
      }
    }

    /** goToPage: the requested page, clamped to the pages there are (1 when there are none). */
    method GoToPage(page: int)
      requires Valid()
      modifies this
      ensures Valid()
      ensures currentPage == Clamp(page, old(Pages()))
      ensures Pages() >= 1 ==> 1 <= currentPage <= Pages()
      ensures searchTerm == old(searchTerm) && sortKey == old(sortKey) && sortOrder == old(sortOrder)
    {
      var total := Pages();
      currentPage := Clamp(page, total);
    }
  }
}

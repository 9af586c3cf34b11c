/**
 * The sort-state handler the tables share: clicking the column already
 * sorted on flips the direction, clicking another column sorts on it in the
 * table's starting direction (descending for the certification, assessment
 * and course tables; ascending for the employee report and DataTable).
 */
module SortToggle {
  datatype Direction = Asc | Desc

  function Flip(d: Direction): (r: Direction)
    ensures r != d
  {
    if d == Asc then Desc else Asc
  }

  /** The sorted column (of whatever type the table keys its columns by) and the direction. */
  datatype SortState<K> = SortState(column: K, direction: Direction)

  /** handleSort(column) for a table whose new columns start in direction `initial`. */
  function HandleSort<K(==)>(s: SortState<K>, column: K, initial: Direction): (r: SortState<K>)
    ensures r.column == column
    ensures s.column == column ==> r.direction == Flip(s.direction)
    ensures s.column != column ==> r.direction == initial
  {
    if s.column == column then SortState(column, Flip(s.direction)) else SortState(column, initial)
  }

  /** Two clicks on the same column restore the direction; a click elsewhere then back starts afresh. */
  lemma HandleSortProperties<K>(s: SortState<K>, column: K, other: K, initial: Direction)
    requires other != column
    ensures HandleSort(HandleSort(s, column, initial), column, initial).direction ==
            (if s.column == column then s.direction else Flip(initial))
    ensures HandleSort(HandleSort(s, other, initial), column, initial) == SortState(column, initial)
  {
  }
}

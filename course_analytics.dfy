/**
 * The course analytics report (components/reports/CourseAnalytics.jsx).
 *
 * The listed courses are those matching the search (in the title or the
 * description) and the category filter, sorted by the chosen column. The
 * comparator never answers 0, so the order it leaves is not a property of
 * the data; everything shown besides the order (the count, the totals, the
 * averages, the set of exported rows) is stated for the filtered list and
 * proved not to depend on the order.
 */
module CourseAnalytics {
  import opened Wrappers
  import opened Strings
  import opened Js
  import opened SortToggle
  import opened Reports

  /** A course as the report receives it; every column may be missing. */
  datatype Course = Course(
    title: Option<string>, description: Option<string>, category: Option<string>,
    totalEnrollments: Option<int>, completedEnrollments: Option<int>, completionRate: Option<int>,
    avgScore: Option<int>, avgDuration: Option<int>)

  /** The category filter's choices. */
  function Categories(courses: seq<Course>): seq<string> {
    DistinctPresent(seq(|courses|, i requires 0 <= i < |courses| => courses[i].category))
  }

  /** Each non-empty category of some course is offered once, and nothing else. */
  lemma CategoriesMeaning(courses: seq<Course>)
    ensures var r := Categories(courses);
            (forall x :: x in r <==> x != "" && exists i :: 0 <= i < |courses| && courses[i].category == Some(x))
            && (forall i, j :: 0 <= i < j < |r| ==> r[i] != r[j])
  {
    var values := seq(|courses|, i requires 0 <= i < |courses| => courses[i].category);
    DistinctPresentMeaning(values);
    forall x ensures Some(x) in values <==> exists i :: 0 <= i < |courses| && courses[i].category == Some(x) {
      if Some(x) in values {
        var i :| 0 <= i < |values| && values[i] == Some(x);
      }
      if exists i :: 0 <= i < |courses| && courses[i].category == Some(x) {
        var i :| 0 <= i < |courses| && courses[i].category == Some(x);
        assert values[i] == Some(x);
      }
    }
  }

  predicate MatchesSearch(c: Course, term: string) {
    term == "" || IncludesIgnoringCase(c.title, term) || IncludesIgnoringCase(c.description, term)
  }

  predicate MatchesCategory(c: Course, filter: string) {
    filter == "all" || c.category == Some(filter)
  }

  /** The filter step, in the input order. */
  function Filtered(courses: seq<Course>, term: string, filter: string): seq<Course> {
    if courses == [] then []
    else
      (if MatchesSearch(courses[0], term) && MatchesCategory(courses[0], filter) then [courses[0]] else [])
      + Filtered(courses[1..], term, filter)
  }

  /** A course is listed exactly when it matches both; no search and 'all' list every course. */
  lemma {:induction false} FilteredMeaning(courses: seq<Course>, term: string, filter: string)
    ensures forall c :: c in Filtered(courses, term, filter) <==>
                        c in courses && MatchesSearch(c, term) && MatchesCategory(c, filter)
    ensures |Filtered(courses, term, filter)| <= |courses|
    ensures term == "" && filter == "all" ==> Filtered(courses, term, filter) == courses
  {
    if courses != [] {
      FilteredMeaning(courses[1..], term, filter);
      assert courses == [courses[0]] + courses[1..];
    }
  }

  // ---------------------------------------------------------------------
  // The summary cards

  datatype Summary = Summary(
    courses: nat, enrollments: int, completions: int, avgCompletionRate: real, avgScore: real)

  function SummaryOf(listed: seq<Course>): (s: Summary)
    ensures s.courses == |listed|
    ensures s.enrollments == SumBy(listed, (c: Course) => OrInt(c.totalEnrollments, 0))
    ensures s.completions == SumBy(listed, (c: Course) => OrInt(c.completedEnrollments, 0))
    ensures listed == [] ==> s.avgCompletionRate == 0.0 && s.avgScore == 0.0
    ensures listed != [] ==>
              s.avgCompletionRate * (|listed| as real) == SumBy(listed, (c: Course) => OrInt(c.completionRate, 0)) as real
              && s.avgScore * (|listed| as real) == SumBy(listed, (c: Course) => OrInt(c.avgScore, 0)) as real
  {
    Summary(|listed|,
            SumBy(listed, (c: Course) => OrInt(c.totalEnrollments, 0)),
            SumBy(listed, (c: Course) => OrInt(c.completedEnrollments, 0)),
            Average(SumBy(listed, (c: Course) => OrInt(c.completionRate, 0)), |listed|),
            Average(SumBy(listed, (c: Course) => OrInt(c.avgScore, 0)), |listed|))
  }

  /** The cards show the same figures whichever order the sort leaves the filtered courses in. */
  lemma SummaryIgnoresOrder(a: seq<Course>, b: seq<Course>)
    requires multiset(a) == multiset(b)
    ensures SummaryOf(a) == SummaryOf(b)
  {
    assert |a| == |multiset(a)| == |multiset(b)| == |b|;
    SumByPermutation(a, b, (c: Course) => OrInt(c.totalEnrollments, 0));
    SumByPermutation(a, b, (c: Course) => OrInt(c.completedEnrollments, 0));
    SumByPermutation(a, b, (c: Course) => OrInt(c.completionRate, 0));
    SumByPermutation(a, b, (c: Course) => OrInt(c.avgScore, 0));
  }

  // ---------------------------------------------------------------------
  // Sorting

  /** The report opens sorted on enrollments, descending; another column starts descending too. */
  const InitialSort := SortState("enrollments", Desc)

  function HandleSortCourses(s: SortState<string>, column: string): (r: SortState<string>)
    ensures r.column == column
    ensures r.direction == if s.column == column then Flip(s.direction) else Desc
  {
    HandleSort(s, column, Desc)
  }

  // ---------------------------------------------------------------------
  // The export

  const Header: seq<string> :=
    ["Course", "Category", "Enrollments", "Completions", "Completion Rate", "Avg Score", "Avg Duration"]

  function CsvRow(c: Course): (r: seq<string>)
    ensures |r| == |Header|
  {
    [TextCell(c.title), TextCell(c.category), NumberCell(c.totalEnrollments), NumberCell(c.completedEnrollments),
     NumberCell(c.completionRate), NumberCell(c.avgScore), NumberCell(c.avgDuration)]
  }

  function ExportRows(listed: seq<Course>): (rows: seq<seq<string>>)
    ensures |rows| == |listed| + 1 && rows[0] == Header
    ensures forall k :: 0 <= k < |listed| ==> rows[k + 1] == CsvRow(listed[k])
  {
    [Header] + seq(|listed|, k requires 0 <= k < |listed| => CsvRow(listed[k]))
  }

  /** handleExport's text. */
  function Export(listed: seq<Course>): string {
    CsvText(ExportRows(listed))
  }

  /**
   * The export is a header line and one line per listed course, each of
   * seven cells, when no title or category holds a separator.
   */
  lemma ExportLines(listed: seq<Course>)
    requires forall k :: 0 <= k < |listed| ==> Plain(listed[k].title) && Plain(listed[k].category)
    ensures var lines := Split(Export(listed), '\n');
            |lines| == |listed| + 1 && Split(lines[0], ',') == Header
            && forall k :: 0 <= k < |listed| ==> Split(lines[k + 1], ',') == CsvRow(listed[k])
  {
    var rows := ExportRows(listed);
    forall k, j | 0 <= k < |rows| && 0 <= j < |rows[k]| ensures ',' !in rows[k][j] && '\n' !in rows[k][j] {
      if k > 0 {
        var c := listed[k - 1];
        NumberCellPlain(c.totalEnrollments);
        NumberCellPlain(c.completedEnrollments);
        NumberCellPlain(c.completionRate);
        NumberCellPlain(c.avgScore);
        NumberCellPlain(c.avgDuration);
      }
    }
    CsvReadsBack(rows);
  }
}

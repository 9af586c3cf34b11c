/**
 * The employee report (components/reports/EmployeeReport.jsx).
 *
 * The listed employees are those matching the search (in the name, the
 * email or the employee id) and the department filter, sorted by the chosen
 * column; as in the course report, the comparator never answers 0, so the
 * figures are stated for the filtered list and proved not to depend on the
 * order. Each row also shows the employee's completion rate.
 */
module EmployeeReport {
  import opened Wrappers
  import opened Strings
  import opened Js
  import opened SortToggle
  import opened Reports

  /** An employee's report row; every column may be missing (a missing number reads as null). */
  datatype Employee = Employee(
    employeeId: Option<string>, name: Option<string>, email: Option<string>, department: Option<string>,
    enrolledCourses: Option<int>, completedCourses: Option<int>, certificates: Option<int>, avgScore: Option<int>)

  /** The department filter's choices. */
  function Departments(employees: seq<Employee>): seq<string> {
    DistinctPresent(seq(|employees|, i requires 0 <= i < |employees| => employees[i].department))
  }

  /** Each non-empty department of some employee is offered once, and nothing else. */
  lemma DepartmentsMeaning(employees: seq<Employee>)
    ensures var r := Departments(employees);
            (forall x :: x in r <==> x != "" && exists i :: 0 <= i < |employees| && employees[i].department == Some(x))
            && (forall i, j :: 0 <= i < j < |r| ==> r[i] != r[j])
  {
    var values := seq(|employees|, i requires 0 <= i < |employees| => employees[i].department);
    DistinctPresentMeaning(values);
    forall x ensures Some(x) in values <==> exists i :: 0 <= i < |employees| && employees[i].department == Some(x) {
      if Some(x) in values {
        var i :| 0 <= i < |values| && values[i] == Some(x);
      }
      if exists i :: 0 <= i < |employees| && employees[i].department == Some(x) {
        var i :| 0 <= i < |employees| && employees[i].department == Some(x);
        assert values[i] == Some(x);
      }
    }
  }

  predicate MatchesSearch(e: Employee, term: string) {
    term == "" || IncludesIgnoringCase(e.name, term) || IncludesIgnoringCase(e.email, term)
    || IncludesIgnoringCase(e.employeeId, term)
  }

  predicate MatchesDepartment(e: Employee, filter: string) {
    filter == "all" || e.department == Some(filter)
  }

  /** The filter step, in the input order. */
  function Filtered(employees: seq<Employee>, term: string, filter: string): seq<Employee> {
    if employees == [] then []
    else
      (if MatchesSearch(employees[0], term) && MatchesDepartment(employees[0], filter) then [employees[0]] else [])
      + Filtered(employees[1..], term, filter)
  }

  /** An employee is listed exactly when both match; no search and 'all' list everyone. */
  lemma {:induction false} FilteredMeaning(employees: seq<Employee>, term: string, filter: string)
    ensures forall e :: e in Filtered(employees, term, filter) <==>
                        e in employees && MatchesSearch(e, term) && MatchesDepartment(e, filter)
    ensures |Filtered(employees, term, filter)| <= |employees|
    ensures term == "" && filter == "all" ==> Filtered(employees, term, filter) == employees
  {
    if employees != [] {
      FilteredMeaning(employees[1..], term, filter);
      assert employees == [employees[0]] + employees[1..];
    }
  }

  // ---------------------------------------------------------------------
  // The summary cards and the per-row rate

  datatype Summary = Summary(enrolled: int, completed: int, certificates: int, avgScore: real)

  function SummaryOf(listed: seq<Employee>): (s: Summary)
    ensures s.enrolled == SumBy(listed, (e: Employee) => OrInt(e.enrolledCourses, 0))
    ensures s.completed == SumBy(listed, (e: Employee) => OrInt(e.completedCourses, 0))
    ensures s.certificates == SumBy(listed, (e: Employee) => OrInt(e.certificates, 0))
    ensures listed == [] ==> s.avgScore == 0.0
    ensures listed != [] ==>
              s.avgScore * (|listed| as real) == SumBy(listed, (e: Employee) => OrInt(e.avgScore, 0)) as real
  {
    Summary(SumBy(listed, (e: Employee) => OrInt(e.enrolledCourses, 0)),
            SumBy(listed, (e: Employee) => OrInt(e.completedCourses, 0)),
            SumBy(listed, (e: Employee) => OrInt(e.certificates, 0)),
            Average(SumBy(listed, (e: Employee) => OrInt(e.avgScore, 0)), |listed|))
  }

  /** The cards show the same figures whichever order the sort leaves the filtered employees in. */
  lemma SummaryIgnoresOrder(a: seq<Employee>, b: seq<Employee>)
    requires multiset(a) == multiset(b)
    ensures SummaryOf(a) == SummaryOf(b)
  {
    assert |a| == |multiset(a)| == |multiset(b)| == |b|;
    SumByPermutation(a, b, (e: Employee) => OrInt(e.enrolledCourses, 0));
    SumByPermutation(a, b, (e: Employee) => OrInt(e.completedCourses, 0));
    SumByPermutation(a, b, (e: Employee) => OrInt(e.certificates, 0));
    SumByPermutation(a, b, (e: Employee) => OrInt(e.avgScore, 0));
  }

  /** `enrolled_courses > 0 ? (completed_courses / enrolled_courses) * 100 : 0`. */
  function CompletionRate(e: Employee): (r: real)
    ensures !(e.enrolledCourses.Some? && e.enrolledCourses.value > 0) ==> r == 0.0
    ensures e.enrolledCourses.Some? && e.enrolledCourses.value > 0 ==>
              r * (e.enrolledCourses.value as real) == 100.0 * (OrInt(e.completedCourses, 0) as real)
  {
    if e.enrolledCourses.Some? && e.enrolledCourses.value > 0 then
      (OrInt(e.completedCourses, 0) as real / e.enrolledCourses.value as real) * 100.0
    else 0.0
  }

  /** Completing no more courses than enrolled in keeps the rate within 0..100, reaching 100 when all are done. */
  lemma CompletionRateBounds(e: Employee)
    requires e.enrolledCourses.Some? && e.enrolledCourses.value > 0
    requires 0 <= OrInt(e.completedCourses, 0) <= e.enrolledCourses.value
    ensures 0.0 <= CompletionRate(e) <= 100.0
    ensures OrInt(e.completedCourses, 0) == e.enrolledCourses.value ==> CompletionRate(e) == 100.0
  {
    var n, c := e.enrolledCourses.value as real, OrInt(e.completedCourses, 0) as real;
    var q := c / n;
    assert q * n == c;
  }

  // ---------------------------------------------------------------------
  // Sorting

  /** The report opens sorted on the name, ascending; another column starts ascending too. */
  const InitialSort := SortState("name", Asc)

  function HandleSortEmployees(s: SortState<string>, column: string): (r: SortState<string>)
    ensures r.column == column
    ensures r.direction == if s.column == column then Flip(s.direction) else Asc
  {
    HandleSort(s, column, Asc)
  }

  // ---------------------------------------------------------------------
  // The export

  const Header: seq<string> :=
    ["Employee ID", "Name", "Email", "Department", "Enrolled Courses", "Completed Courses", "Certificates", "Avg Score"]

  function CsvRow(e: Employee): (r: seq<string>)
    ensures |r| == |Header|
  {
    [TextCell(e.employeeId), TextCell(e.name), TextCell(e.email), TextCell(e.department),
     NumberCell(e.enrolledCourses), NumberCell(e.completedCourses), NumberCell(e.certificates), NumberCell(e.avgScore)]
  }

  function ExportRows(listed: seq<Employee>): (rows: seq<seq<string>>)
    ensures |rows| == |listed| + 1 && rows[0] == Header
    ensures forall k :: 0 <= k < |listed| ==> rows[k + 1] == CsvRow(listed[k])
  {
    [Header] + seq(|listed|, k requires 0 <= k < |listed| => CsvRow(listed[k]))
  }

  /** handleExport's text. */
  function Export(listed: seq<Employee>): string {
    CsvText(ExportRows(listed))
  }

  /** The export is an 8-column header line and one 8-cell line per listed employee, when no text holds a separator. */
  lemma ExportLines(listed: seq<Employee>)
    requires forall k :: 0 <= k < |listed| ==>
               Plain(listed[k].employeeId) && Plain(listed[k].name) && Plain(listed[k].email) && Plain(listed[k].department)
    ensures var lines := Split(Export(listed), '\n');
            |lines| == |listed| + 1 && Split(lines[0], ',') == Header
            && forall k :: 0 <= k < |listed| ==> Split(lines[k + 1], ',') == CsvRow(listed[k])
  {
    var rows := ExportRows(listed);
    forall k, j | 0 <= k < |rows| && 0 <= j < |rows[k]| ensures ',' !in rows[k][j] && '\n' !in rows[k][j] {
      if k > 0 {
        var e := listed[k - 1];
        NumberCellPlain(e.enrolledCourses);
        NumberCellPlain(e.completedCourses);
        NumberCellPlain(e.certificates);
        NumberCellPlain(e.avgScore);
      }
    }
    CsvReadsBack(rows);
  }
}

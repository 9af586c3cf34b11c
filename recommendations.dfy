/**
 * Course recommendations and the learning path (lib/ai-recommendations.js).
 *
 * The four database reads become inputs: the employee row (if any), the
 * employee's completed courses, the department-popular pool, the
 * role-matching pool and the trending pool, each in the order the query
 * returns it.
 */
module Recommendations {
  import opened Wrappers
  import opened Js
  import opened Sorting

  datatype Course = Course(id: int, title: string)

  datatype Employee = Employee(id: int, department: Value, designation: Value)

  datatype Kind = Department | Role | Trending

  datatype Recommendation = Recommendation(course: Course, score: int, reason: string, kind: Kind)

  function DepartmentReason(e: Employee): string {
    "Popular in " + ToText(e.department) + " department"
  }

  function RoleReason(e: Employee): string {
    "Relevant for " + ToText(e.designation) + " role"
  }

  const TrendingReason := "Trending course this month"

  /** The entry the department pass pushes for the course at `index`. */
  function DepartmentEntry(e: Employee, c: Course, index: int): Recommendation {
    Recommendation(c, 90 - index * 5, DepartmentReason(e), Department)
  }

  function RoleEntry(e: Employee, c: Course, index: int): Recommendation {
    Recommendation(c, 75 - index * 5, RoleReason(e), Role)
  }

  function TrendingEntry(c: Course, index: int): Recommendation {
    Recommendation(c, 60 - index * 5, TrendingReason, Trending)
  }

  /** `recommendations.find(r => r.id === id)` finds something. */
  predicate HasCourse(recs: seq<Recommendation>, id: int) {
    exists k :: 0 <= k < |recs| && recs[k].course.id == id
  }

  function CompletedIds(completed: seq<Course>): set<int> {
    set c | c in completed :: c.id
  }

  /** `pool.filter(c => !completedIds.has(c.id))`. */
  function WithoutCompleted(pool: seq<Course>, done: set<int>): (r: seq<Course>)
    ensures forall k :: 0 <= k < |r| ==> r[k] in pool && r[k].id !in done
  {
    if pool == [] then []
    else if pool[0].id in done then WithoutCompleted(pool[1..], done)
    else [pool[0]] + WithoutCompleted(pool[1..], done)
  }

  /** The department pass after its first `n` iterations. */
  function DepartmentPass(e: Employee, pool: seq<Course>, n: nat): (r: seq<Recommendation>)
    requires n <= |pool|
    ensures |r| == n
  {
    seq(n, k requires 0 <= k < n => DepartmentEntry(e, pool[k], k))
  }

  /** The role pass after its first `n` iterations, starting from `base`. */
  function RolePass(e: Employee, base: seq<Recommendation>, pool: seq<Course>, n: nat): seq<Recommendation>
    requires n <= |pool|
  {
    if n == 0 then base
    else
      var prev := RolePass(e, base, pool, n - 1);
      if HasCourse(prev, pool[n - 1].id) then prev else prev + [RoleEntry(e, pool[n - 1], n - 1)]
  }

  /** The trending pass after its first `n` iterations, over the raw rows. */
  function TrendingPass(base: seq<Recommendation>, rows: seq<Course>, done: set<int>, n: nat): seq<Recommendation>
    requires n <= |rows|
  {
    if n == 0 then base
    else
      var prev := TrendingPass(base, rows, done, n - 1);
      if HasCourse(prev, rows[n - 1].id) || rows[n - 1].id in done then prev
      else prev + [TrendingEntry(rows[n - 1], n - 1)]
  }

  /** The list as it stands just before the sort. */
  function Merged(e: Employee, completed: seq<Course>, department: seq<Course>,
                  role: seq<Course>, trending: seq<Course>): seq<Recommendation>
  {
    var done := CompletedIds(completed);
    var d := WithoutCompleted(department, done);
    var r := WithoutCompleted(role, done);
    var afterDepartment := DepartmentPass(e, d, |d|);
    var afterRole := RolePass(e, afterDepartment, r, |r|);
    TrendingPass(afterRole, trending, done, |trending|)
  }

  /** The comparator `(a, b) => b.recommendation_score - a.recommendation_score`. */
  function ScoreFirst(a: Recommendation, b: Recommendation): bool {
    a.score >= b.score
  }

  function Ranked(merged: seq<Recommendation>): seq<Recommendation> {
    SortBy(merged, ScoreFirst)
  }

  /** `slice(0, n)`. */
  function Take<T>(s: seq<T>, n: nat): (r: seq<T>)
    ensures |r| <= n && |r| <= |s| && r == s[..|r|]
    ensures |s| >= n ==> |r| == n
  {
    if |s| <= n then s else s[..n]
  }

  /** What getAIRecommendations returns or throws. */
  function Recommend(employee: Option<Employee>, completed: seq<Course>, department: seq<Course>,
                     role: seq<Course>, trending: seq<Course>): Result<seq<Recommendation>>
  {
    if employee.None? then Failure("Employee not found")
    else Success(Take(Ranked(Merged(employee.value, completed, department, role, trending)), 10))
  }

  /**
   * A database read that throws, with its error's message: the employee
   * lookup, or one of the reads after it. The catch block rethrows it.
   */
  datatype Fault = NoFault | LookupFails(message: string) | LaterReadFails(message: string)

  /** getAIRecommendations: the push loops, the in-place sort and the slice. */
  method GetAIRecommendations(fault: Fault, employee: Option<Employee>, completed: seq<Course>, department: seq<Course>,
                              role: seq<Course>, trending: seq<Course>)
    returns (result: Result<seq<Recommendation>>)
    ensures fault.LookupFails? ==> result == Failure(fault.message)
    ensures !fault.LookupFails? && employee.None? ==> result == Failure("Employee not found")
    ensures fault.LaterReadFails? && employee.Some? ==> result == Failure(fault.message)
    ensures fault == NoFault ==> result == Recommend(employee, completed, department, role, trending)
  {
    if fault.LookupFails? {
      return Failure(fault.message);
    }
    if employee.None? {
      return Failure("Employee not found");
    }
    if fault.LaterReadFails? {
      return Failure(fault.message);
    }
    var e := employee.value;
    var done := CompletedIds(completed);
    var departmentCourses := WithoutCompleted(department, done);
    var roleCourses := WithoutCompleted(role, done);

    var recommendations: seq<Recommendation> := [];
    var i := 0;
    while i < |departmentCourses|
      invariant 0 <= i <= |departmentCourses|
      invariant recommendations == DepartmentPass(e, departmentCourses, i)
    {
      recommendations := recommendations + [DepartmentEntry(e, departmentCourses[i], i)];
      i := i + 1;
    }
    var afterDepartment := recommendations;

    i := 0;
    while i < |roleCourses|
      invariant 0 <= i <= |roleCourses|
      invariant recommendations == RolePass(e, afterDepartment, roleCourses, i)
    {
      if !HasCourse(recommendations, roleCourses[i].id) {
        recommendations := recommendations + [RoleEntry(e, roleCourses[i], i)];
      }
      i := i + 1;
    }
    var afterRole := recommendations;

    i := 0;
    while i < |trending|
      invariant 0 <= i <= |trending|
      invariant recommendations == TrendingPass(afterRole, trending, done, i)
    {
      if !HasCourse(recommendations, trending[i].id) && trending[i].id !in done {
        recommendations := recommendations + [TrendingEntry(trending[i], i)];
      }
      i := i + 1;
    }

    recommendations := SortBy(recommendations, ScoreFirst);
    return Success(Take(recommendations, 10));
  }

  // ---------------------------------------------------------------------
  // Properties of the ranking

  /** The i-th department course (after the completed filter) scores 90 - 5i. */
  lemma DepartmentScores(e: Employee, completed: seq<Course>, department: seq<Course>,
                         role: seq<Course>, trending: seq<Course>)
    ensures var d := WithoutCompleted(department, CompletedIds(completed));
            var m := Merged(e, completed, department, role, trending);
            |d| <= |m| && forall i :: 0 <= i < |d| ==> m[i] == DepartmentEntry(e, d[i], i)
  {
    var done := CompletedIds(completed);
    var d := WithoutCompleted(department, done);
    var r := WithoutCompleted(role, done);
    var base := DepartmentPass(e, d, |d|);
    var afterRole := RolePass(e, base, r, |r|);
    var m := TrendingPass(afterRole, trending, done, |trending|);
    assert m == Merged(e, completed, department, role, trending);
    RolePassExtends(e, base, r, |r|);
    TrendingPassExtends(afterRole, trending, done, |trending|);
    forall i | 0 <= i < |d| ensures m[i] == DepartmentEntry(e, d[i], i) {
      assert m[i] == m[..|afterRole|][i] == afterRole[i];
      assert afterRole[i] == afterRole[..|base|][i] == base[i];
    }
  }

  lemma {:induction false} RolePassExtends(e: Employee, base: seq<Recommendation>, pool: seq<Course>, n: nat)
    requires n <= |pool|
    ensures |base| <= |RolePass(e, base, pool, n)|
    ensures RolePass(e, base, pool, n)[..|base|] == base
  {
    if n > 0 {
      RolePassExtends(e, base, pool, n - 1);
    }
  }

  lemma {:induction false} TrendingPassExtends(base: seq<Recommendation>, rows: seq<Course>, done: set<int>, n: nat)
    requires n <= |rows|
    ensures |base| <= |TrendingPass(base, rows, done, n)|
    ensures TrendingPass(base, rows, done, n)[..|base|] == base
  {
    if n > 0 {
      TrendingPassExtends(base, rows, done, n - 1);
    }
  }

  /**
   * Every entry the role pass adds is the entry of a filtered role course at
   * its own index, so a skipped course still uses up its index; and every
   * role course is present afterwards, added or already there.
   */
  lemma {:induction false} RolePassEntries(e: Employee, base: seq<Recommendation>, pool: seq<Course>, n: nat)
    requires n <= |pool|
    ensures var r := RolePass(e, base, pool, n);
            forall k :: |base| <= k < |r| ==> exists j :: 0 <= j < n && r[k] == RoleEntry(e, pool[j], j)
    ensures forall j :: 0 <= j < n ==> HasCourse(RolePass(e, base, pool, n), pool[j].id)
  {
    if n > 0 {
      RolePassEntries(e, base, pool, n - 1);
      RolePassExtends(e, base, pool, n - 1);
      RolePassStep(e, base, pool, n);
    }
  }

  /** One role iteration, given what the earlier ones established. */
  lemma RolePassStep(e: Employee, base: seq<Recommendation>, pool: seq<Course>, n: nat)
    requires 0 < n <= |pool|
    requires var prev := RolePass(e, base, pool, n - 1);
             |base| <= |prev|
             && (forall k :: |base| <= k < |prev| ==> exists j :: 0 <= j < n - 1 && prev[k] == RoleEntry(e, pool[j], j))
             && (forall j :: 0 <= j < n - 1 ==> HasCourse(prev, pool[j].id))
    ensures var r := RolePass(e, base, pool, n);
            forall k :: |base| <= k < |r| ==> exists j :: 0 <= j < n && r[k] == RoleEntry(e, pool[j], j)
    ensures forall j :: 0 <= j < n ==> HasCourse(RolePass(e, base, pool, n), pool[j].id)
  {
    var prev := RolePass(e, base, pool, n - 1);
    var r := RolePass(e, base, pool, n);
    assert r == prev || r == prev + [RoleEntry(e, pool[n - 1], n - 1)];
    forall k | |base| <= k < |r| ensures exists j :: 0 <= j < n && r[k] == RoleEntry(e, pool[j], j) {
      if k < |prev| {
        assert r[k] == prev[k];
        var j :| 0 <= j < n - 1 && prev[k] == RoleEntry(e, pool[j], j);
      } else {
        assert r[k] == RoleEntry(e, pool[n - 1], n - 1);
      }
    }
    forall j | 0 <= j < n ensures HasCourse(r, pool[j].id) {
      if j < n - 1 {
        var k :| 0 <= k < |prev| && prev[k].course.id == pool[j].id;
        assert r[k] == prev[k];
      } else if !HasCourse(prev, pool[n - 1].id) {
        assert r[|prev|].course.id == pool[j].id;
      }
    }
  }


  /** A role course is added exactly when no entry with its id is present yet. */
  lemma RoleSkipRule(e: Employee, base: seq<Recommendation>, pool: seq<Course>, j: nat)
    requires j < |pool|
    ensures var prev := RolePass(e, base, pool, j);
            RolePass(e, base, pool, j + 1)
              == if HasCourse(prev, pool[j].id) then prev else prev + [RoleEntry(e, pool[j], j)]
  {
  }

  /** Trending entries are scored by their index in the raw rows and are never completed courses. */
  lemma {:induction false} TrendingPassEntries(base: seq<Recommendation>, rows: seq<Course>, done: set<int>, n: nat)
    requires n <= |rows|
    ensures var r := TrendingPass(base, rows, done, n);
            forall k :: |base| <= k < |r| ==>
              r[k].course.id !in done && exists j :: 0 <= j < n && r[k] == TrendingEntry(rows[j], j)
  {
    if n > 0 {
      TrendingPassEntries(base, rows, done, n - 1);
      TrendingPassExtends(base, rows, done, n - 1);
    }
  }

  /** Concrete case: a role course already listed by its department is skipped, and the next one scores 70, not 75. */
  lemma SkippedRoleCourseConsumesIndex(e: Employee)
    ensures var a := Course(1, "A");
            var b := Course(2, "B");
            Merged(e, [], [a], [a, b], [])
              == [DepartmentEntry(e, a, 0), RoleEntry(e, b, 1)]
            && RoleEntry(e, b, 1).score == 70
  {
    var a := Course(1, "A");
    var b := Course(2, "B");
    var base := DepartmentPass(e, [a], 1);
    assert CompletedIds([]) == {};
    assert [a][1..] == [] && [a, b][1..] == [b] && [b][1..] == [];
    assert WithoutCompleted([a], {}) == [a];
    assert WithoutCompleted([b], {}) == [b];
    assert WithoutCompleted([a, b], {}) == [a, b];
    assert HasCourse(RolePass(e, base, [a, b], 0), a.id) by {
      assert base[0].course.id == a.id;
    }
    assert RolePass(e, base, [a, b], 1) == base;
    var one := RolePass(e, base, [a, b], 1);
    assert !HasCourse(one, b.id);
    assert RolePass(e, base, [a, b], 2) == base + [RoleEntry(e, b, 1)];
  }

  /** No entry of the merged list is a completed course. */
  lemma MergedNotCompleted(e: Employee, completed: seq<Course>, department: seq<Course>,
                           role: seq<Course>, trending: seq<Course>)
    ensures var m := Merged(e, completed, department, role, trending);
            forall k :: 0 <= k < |m| ==> m[k].course.id !in CompletedIds(completed)
  {
    var done := CompletedIds(completed);
    var d := WithoutCompleted(department, done);
    var r := WithoutCompleted(role, done);
    var base := DepartmentPass(e, d, |d|);
    var afterRole := RolePass(e, base, r, |r|);
    RolePassExtends(e, base, r, |r|);
    RolePassEntries(e, base, r, |r|);
    TrendingPassExtends(afterRole, trending, done, |trending|);
    TrendingPassEntries(afterRole, trending, done, |trending|);
    var m := TrendingPass(afterRole, trending, done, |trending|);
    forall k | 0 <= k < |m| ensures m[k].course.id !in done {
      if k < |base| {
        assert m[k] == afterRole[k] == base[k];
      } else if k < |afterRole| {
        assert m[k] == afterRole[k];
        var j :| 0 <= j < |r| && afterRole[k] == RoleEntry(e, r[j], j);
      }
    }
  }

  function IdOf(r: Recommendation): int {
    r.course.id
  }

  predicate DistinctCourses(s: seq<Course>) {
    forall i, j :: 0 <= i < j < |s| ==> s[i].id != s[j].id
  }

  lemma {:induction false} WithoutCompletedDistinct(pool: seq<Course>, done: set<int>)
    requires DistinctCourses(pool)
    ensures DistinctCourses(WithoutCompleted(pool, done))
  {
    if pool != [] {
      WithoutCompletedDistinct(pool[1..], done);
      var rest := WithoutCompleted(pool[1..], done);
      forall k | 0 <= k < |rest| ensures rest[k].id != pool[0].id {
        var j :| 0 <= j < |pool[1..]| && pool[1..][j] == rest[k];
        assert pool[j + 1] == rest[k];
      }
    }
  }

  lemma {:induction false} RolePassDistinct(e: Employee, base: seq<Recommendation>, pool: seq<Course>, n: nat)
    requires n <= |pool|
    requires DistinctBy(base, IdOf)
    ensures DistinctBy(RolePass(e, base, pool, n), IdOf)
  {
    if n > 0 {
      RolePassDistinct(e, base, pool, n - 1);
    }
  }

  lemma {:induction false} TrendingPassDistinct(base: seq<Recommendation>, rows: seq<Course>, done: set<int>, n: nat)
    requires n <= |rows|
    requires DistinctBy(base, IdOf)
    ensures DistinctBy(TrendingPass(base, rows, done, n), IdOf)
  {
    if n > 0 {
      TrendingPassDistinct(base, rows, done, n - 1);
    }
  }

  /**
   * No course appears twice. The department query groups by course id, so
   * its rows are distinct; the role and trending passes check for duplicates.
   */
  lemma MergedDistinct(e: Employee, completed: seq<Course>, department: seq<Course>,
                       role: seq<Course>, trending: seq<Course>)
    requires DistinctCourses(department)
    ensures DistinctBy(Merged(e, completed, department, role, trending), IdOf)
  {
    var done := CompletedIds(completed);
    var d := WithoutCompleted(department, done);
    var r := WithoutCompleted(role, done);
    WithoutCompletedDistinct(department, done);
    var base := DepartmentPass(e, d, |d|);
    RolePassDistinct(e, base, r, |r|);
    TrendingPassDistinct(RolePass(e, base, r, |r|), trending, done, |trending|);
  }

  lemma ScoreFirstIsTotalPreorder()
    ensures TotalPreorder(ScoreFirst)
  {
  }

  /**
   * The result of a known employee: at most ten entries, non-increasing
   * scores, a stable reordering of the merged list, no completed course and
   * (with distinct department rows) no course twice.
   */
  lemma RecommendProperties(e: Employee, completed: seq<Course>, department: seq<Course>,
                            role: seq<Course>, trending: seq<Course>)
    ensures var m := Merged(e, completed, department, role, trending);
            var res := Recommend(Some(e), completed, department, role, trending);
            res.Success?
            && |res.value| <= 10
            && |res.value| == (if |m| < 10 then |m| else 10)
            && (forall i, j :: 0 <= i < j < |res.value| ==> res.value[i].score >= res.value[j].score)
            && (forall x :: x in res.value ==> x in m)
            && (forall x :: x in res.value ==> x.course.id !in CompletedIds(completed))
            && (DistinctCourses(department) ==> DistinctBy(res.value, IdOf))
            && (forall k: Recommendation :: TiedWith(Ranked(m), ScoreFirst, k) == TiedWith(m, ScoreFirst, k))
  {
    var m := Merged(e, completed, department, role, trending);
    var ranked := Ranked(m);
    var res := Take(ranked, 10);
    ScoreFirstIsTotalPreorder();
    SortSorted(m, ScoreFirst);
    SortLength(m, ScoreFirst);
    forall x | x in res ensures x in m && x.course.id !in CompletedIds(completed) {
      SortMembers(m, ScoreFirst, x);
      MergedNotCompleted(e, completed, department, role, trending);
    }
    if DistinctCourses(department) {
      MergedDistinct(e, completed, department, role, trending);
      SortDistinct(m, ScoreFirst, IdOf);
    }
    forall k: Recommendation {
      SortStable(m, ScoreFirst, k);
    }
  }

  /** Concrete tie: the fourth department course and the first role course both score 75, and the department one stays first. */
  lemma TieKeepsPoolOrder(e: Employee)
    ensures var x := DepartmentEntry(e, Course(4, "D"), 3);
            var y := RoleEntry(e, Course(5, "R"), 0);
            x.score == y.score == 75 && Ranked([x, y]) == [x, y]
  {
    var x := DepartmentEntry(e, Course(4, "D"), 3);
    var y := RoleEntry(e, Course(5, "R"), 0);
    assert [x, y][1..] == [y] && [y][1..] == [];
    assert SortBy([y], ScoreFirst) == [y];
  }

  // ---------------------------------------------------------------------
  // Learning path

  /** A row of the current-enrollments query (e.* joined with the course title and progress). */
  datatype CurrentCourse = CurrentCourse(courseId: int, title: string, progressPercentage: Value)

  datatype Priority = High | Medium
  datatype StepStatus = InProgress | Recommended

  datatype PathStep = PathStep(courseId: int, title: string, priority: Priority, status: StepStatus,
                               progress: Value, reason: Option<string>)

  /** The step of a course in progress: high priority, with its progress (0 when it is falsy). */
  function CurrentStep(c: CurrentCourse): PathStep {
    PathStep(c.courseId, c.title, High, InProgress,
             if Truthy(c.progressPercentage) then c.progressPercentage else Num(0), None)
  }

  /** The step of the j-th recommendation: the first two high priority, the rest medium. */
  function RecommendedStep(r: Recommendation, j: nat): PathStep {
    PathStep(r.course.id, r.course.title, if j < 2 then High else Medium, Recommended, Num(0), Some(r.reason))
  }

  /** `path` lists a step per current course, in order, then a step for each of the first five recommendations. */
  predicate IsLearningPath(current: seq<CurrentCourse>, recs: seq<Recommendation>, path: seq<PathStep>) {
    |path| == |current| + (if |recs| < 5 then |recs| else 5)
    && (forall i :: 0 <= i < |current| ==> path[i] == CurrentStep(current[i]))
    && (forall j :: 0 <= j < |path| - |current| ==> path[|current| + j] == RecommendedStep(recs[j], j))
  }

  /** generateLearningPath: ongoing courses first, then the top five recommendations. */
  method GenerateLearningPath(current: seq<CurrentCourse>, recs: seq<Recommendation>)
    returns (path: seq<PathStep>)
    ensures IsLearningPath(current, recs, path)
  {
    path := [];
    var i := 0;
    while i < |current|
      invariant 0 <= i <= |current| && |path| == i
      invariant forall k :: 0 <= k < i ==> path[k] == CurrentStep(current[k])
    {
      var c := current[i];
      var progress := if Truthy(c.progressPercentage) then c.progressPercentage else Num(0);
      path := path + [PathStep(c.courseId, c.title, High, InProgress, progress, None)];
      i := i + 1;
    }
    var top := Take(recs, 5);
    var j := 0;
    while j < |top|
      invariant 0 <= j <= |top| && |path| == |current| + j
      invariant forall k :: 0 <= k < |current| ==> path[k] == CurrentStep(current[k])
      invariant forall k :: 0 <= k < j ==> path[|current| + k] == RecommendedStep(recs[k], k)
    {
      var r := top[j];
      var priority := if j < 2 then High else Medium;
      path := path + [PathStep(r.course.id, r.course.title, priority, Recommended, Num(0), Some(r.reason))];
      j := j + 1;
    }
  }

  /** getPersonalizedLearningPath: the recommendations and the path built from them. */
  datatype LearningPlan = LearningPlan(current: seq<CurrentCourse>, recommended: seq<Recommendation>,
                                       path: seq<PathStep>)

  /**
   * getPersonalizedLearningPath: an error of getAIRecommendations, or of
   * the current-courses read (`progressError`), is rethrown.
   */
  method GetPersonalizedLearningPath(fault: Fault, progressError: Option<string>, employee: Option<Employee>,
                                     completed: seq<Course>, department: seq<Course>,
                                     role: seq<Course>, trending: seq<Course>, current: seq<CurrentCourse>)
    returns (plan: Result<LearningPlan>)
    ensures fault.LookupFails? ==> plan == Failure(fault.message)
    ensures !fault.LookupFails? && employee.None? ==> plan == Failure("Employee not found")
    ensures fault.LaterReadFails? && employee.Some? ==> plan == Failure(fault.message)
    ensures fault == NoFault && employee.Some? && progressError.Some? ==> plan == Failure(progressError.value)
    ensures fault == NoFault && employee.Some? && progressError.None? ==> plan.Success?
    ensures plan.Success? ==>
              plan.value.current == current
              && Success(plan.value.recommended) == Recommend(employee, completed, department, role, trending)
              && IsLearningPath(current, plan.value.recommended, plan.value.path)
  {
    var recs := GetAIRecommendations(fault, employee, completed, department, role, trending);
    if recs.Failure? {
      return Failure(recs.error);
    }
    if progressError.Some? {
      return Failure(progressError.value);
    }
    var path := GenerateLearningPath(current, recs.value);
    return Success(LearningPlan(current, recs.value, path));
  }
}

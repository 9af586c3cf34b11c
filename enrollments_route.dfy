/**
 * The enrollments API (app/api/enrollments/route.js).
 *
 * GET builds a filtered query; POST creates an enrollment and its
 * progress-tracking row inside one transaction. The enrollments and
 * progress_tracking tables are sequences of rows in `Tables`, together with
 * the transaction the pooled client has open and the number of clients
 * checked out of the pool. Where a query fails is an input (`fault`); so
 * are the uuids, the clock and the random text.
 */
module EnrollmentsRoute {
  import opened Wrappers
  import opened Js
  import opened Sql
  import opened Http
  import Utils

  // ---------------------------------------------------------------------
  // GET

  const SelectEnrollments := "SELECT e.*, … FROM enrollments e … WHERE 1=1"
  const OrderByCreated := " ORDER BY e.created_at DESC"

  const CourseClause := " AND e.course_id = "
  const EmployeeClause := " AND e.employee_id = "
  const StatusClause := " AND e.enrollment_status = "

  /** The course, employee and status filters the request supplies, in that order. */
  function EnrollmentFilters(courseId: Option<string>, employeeId: Option<string>, status: Option<string>): seq<(string, Value)> {
    Supplied(CourseClause, courseId) + Supplied(EmployeeClause, employeeId)
    + Supplied(StatusClause, status)
  }

  /** `params.push(parseInt(limit))`. */
  function LimitValue(limit: string): Value {
    match Strings.ParseInt(limit)
    case None => NaN
    case Some(n) => Num(n)
  }

  /** parseInt reads `0x10` as hexadecimal: a limit of 16 rows; text without leading digits is NaN. */
  lemma LimitValueExamples()
    ensures LimitValue("0x10") == Num(16)
    ensures LimitValue("ten") == NaN
  {
    Strings.ParseIntHexExamples();
    Strings.ParseIntOfLetter("ten");
  }

  const LimitClause := " LIMIT "

  /** ` LIMIT $n` when a limit is supplied (a non-empty search parameter). */
  function LimitPieces(limit: Option<string>, n: nat): seq<Piece> {
    if limit.Some? && limit.value != "" then [Text(LimitClause), Param(n)] else []
  }

  function LimitParams(limit: Option<string>): seq<Value> {
    if limit.Some? && limit.value != "" then [LimitValue(limit.value)] else []
  }

  /** `if (limit) { paramCount++; sql += ` LIMIT $${paramCount}`; params.push(parseInt(limit)) }`. */
  function AddLimit(q: Query, limit: Option<string>): (r: Query)
    requires Valid(q)
    ensures Valid(r)
    ensures r.sql == q.sql + LimitPieces(limit, q.paramCount + 1) && r.params == q.params + LimitParams(limit)
  {
    if limit.Some? && limit.value != "" then AddParam(q, LimitClause, LimitValue(limit.value))
    else
      assert q.sql + [] == q.sql && q.params + [] == q.params;
      q
  }

  /** The GET query: the filters, the ordering, then LIMIT as the last placeholder. */
  method EnrollmentsQuery(courseId: Option<string>, employeeId: Option<string>, status: Option<string>, limit: Option<string>)
    returns (sql: seq<Piece>, params: seq<Value>)
    ensures var fs := EnrollmentFilters(courseId, employeeId, status);
            sql == [Text(SelectEnrollments)] + FilterPieces(fs, 0) + [Text(OrderByCreated)] + LimitPieces(limit, |fs| + 1)
            && params == Values(fs) + LimitParams(limit)
    ensures Numbered(sql, params)
  {
    var q := Start(SelectEnrollments);
    q := AddSupplied(q, CourseClause, courseId);
    q := AddSupplied(q, EmployeeClause, employeeId);
    q := AddSupplied(q, StatusClause, status);
    FiltersInOrder(courseId, employeeId, status);
    ghost var filtered := q;
    q := Append(q, OrderByCreated);
    q := AddLimit(q, limit);
    LimitLast(filtered, [Text(SelectEnrollments)], EnrollmentFilters(courseId, employeeId, status), limit);
    sql, params := q.sql, q.params;
  }

  /** The three filter blocks leave the base followed by the supplied filters, numbered from $1. */
  lemma FiltersInOrder(courseId: Option<string>, employeeId: Option<string>, status: Option<string>)
    ensures var q := AddSupplied(AddSupplied(AddSupplied(Start(SelectEnrollments), CourseClause, courseId),
                                             EmployeeClause, employeeId), StatusClause, status);
            Valid(q) && Filtered(q, [Text(SelectEnrollments)], EnrollmentFilters(courseId, employeeId, status))
  {
    var head := [Text(SelectEnrollments)];
    var q0 := Start(SelectEnrollments);
    assert Filtered(q0, head, []);
    AddSuppliedFiltered(q0, CourseClause, courseId, head, []);
    var q1 := AddSupplied(q0, CourseClause, courseId);
    assert [] + Supplied(CourseClause, courseId) == Supplied(CourseClause, courseId);
    AddSuppliedFiltered(q1, EmployeeClause, employeeId, head, Supplied(CourseClause, courseId));
    var q2 := AddSupplied(q1, EmployeeClause, employeeId);
    AddSuppliedFiltered(q2, StatusClause, status, head, Supplied(CourseClause, courseId) + Supplied(EmployeeClause, employeeId));
  }

  /** ORDER BY, then the LIMIT placeholder numbered after every filter. */
  lemma LimitLast(q: Query, head: seq<Piece>, fs: seq<(string, Value)>, limit: Option<string>)
    requires Valid(q) && Filtered(q, head, fs)
    ensures var r := AddLimit(Append(q, OrderByCreated), limit);
            r.sql == head + FilterPieces(fs, 0) + [Text(OrderByCreated)] + LimitPieces(limit, |fs| + 1)
            && r.params == Values(fs) + LimitParams(limit) && Valid(r)
  {
  }

  // ---------------------------------------------------------------------
  // POST

  datatype Enrollment = Enrollment(
    id: string, enrollmentId: string, employeeId: Value, courseId: Value, programName: Value,
    enrollmentDate: string, status: string, enrolledBy: Value, enrollmentType: Value,
    productName: Value, comments: Value, completion: int)

  datatype ProgressRow = ProgressRow(id: string, enrollmentId: string, employeeId: Value, courseId: Value, progress: int)

  /** The fields of the request body the handler destructures. */
  datatype Body = Body(employeeId: Value, courseId: Value, programName: Value, enrollmentType: Value,
                       productName: Value, comments: Value)

  /** The statement that throws, if any, in the order the handler runs them. */
  datatype Step = ParseJson | BeginTx | DuplicateCheck | InsertEnrollment | InsertProgress | CommitTx | CourseLookup

  /** Values the database, the clock and Math.random supply. */
  datatype Generated = Generated(enrollmentUuid: string, progressUuid: string, nowMs: nat, randomText: string, today: string)

  predicate IsOpen(e: Enrollment) {
    e.status == "Pending" || e.status == "Active"
  }

  /** The duplicate check's query finds a row. */
  predicate HasOpen(rows: seq<Enrollment>, employeeId: Value, courseId: Value) {
    exists i :: 0 <= i < |rows| && rows[i].employeeId == employeeId && rows[i].courseId == courseId && IsOpen(rows[i])
  }

  /** At most one Pending or Active enrollment per (employee, course). */
  predicate UniqueOpen(rows: seq<Enrollment>) {
    forall i, j :: 0 <= i < j < |rows| && IsOpen(rows[i]) && IsOpen(rows[j]) ==>
      !(rows[i].employeeId == rows[j].employeeId && rows[i].courseId == rows[j].courseId)
  }

  /** The row the insert creates. */
  function NewEnrollment(body: Body, session: Session, g: Generated): (e: Enrollment)
    ensures e.status == "Pending" && e.completion == 0 && e.enrolledBy == session.userId
    ensures e.employeeId == body.employeeId && e.courseId == body.courseId
    ensures body.enrollmentType == Undefined ==> e.enrollmentType == Str("Manual")
    ensures body.enrollmentType != Undefined ==> e.enrollmentType == body.enrollmentType
  {
    Enrollment(g.enrollmentUuid, Utils.GenerateId(Str("ENR"), g.nowMs, g.randomText), body.employeeId,
               body.courseId, body.programName, g.today, "Pending", session.userId,
               if body.enrollmentType == Undefined then Str("Manual") else body.enrollmentType,
               body.productName, body.comments, 0)
  }

  function NewProgress(e: Enrollment, g: Generated): (p: ProgressRow)
    ensures p.enrollmentId == e.id && p.progress == 0
    ensures p.employeeId == e.employeeId && p.courseId == e.courseId
  {
    ProgressRow(g.progressUuid, e.id, e.employeeId, e.courseId, 0)
  }

  /** Appending an enrollment that the duplicate check let through keeps UniqueOpen. */
  lemma UniqueOpenAppend(rows: seq<Enrollment>, e: Enrollment)
    requires UniqueOpen(rows)
    requires !HasOpen(rows, e.employeeId, e.courseId)
    ensures UniqueOpen(rows + [e])
  {
    var r := rows + [e];
    forall i, j | 0 <= i < j < |r| && IsOpen(r[i]) && IsOpen(r[j])
      ensures !(r[i].employeeId == r[j].employeeId && r[i].courseId == r[j].courseId)
    {
      if j == |rows| {
        assert r[i] == rows[i];
      }
    }
  }

  /** A blocking enrollment is a Pending or Active one; Completed, Cancelled and Expired rows never block. */
  lemma ClosedDoNotBlock(rows: seq<Enrollment>, employeeId: Value, courseId: Value)
    requires forall i :: 0 <= i < |rows| ==> rows[i].status in {"Completed", "Cancelled", "Expired"}
    ensures !HasOpen(rows, employeeId, courseId)
  {
  }

  /** What a POST returns when nothing throws after the checks pass. */
  const Created := 201

  class Tables {
    var enrollments: seq<Enrollment>
    var progress: seq<ProgressRow>
    /** The open transaction's starting point, while one is open. */
    var snapshot: Option<(seq<Enrollment>, seq<ProgressRow>)>
    /** Clients checked out of the pool and not yet released. */
    var clientsOut: nat

    predicate Valid()
      reads this
    {
      UniqueOpen(enrollments) && snapshot.None?
    }

    constructor ()
      ensures Valid() && enrollments == [] && progress == [] && clientsOut == 0
    {
      enrollments, progress, snapshot, clientsOut := [], [], None, 0;
    }

    method Begin()
      modifies this`snapshot
      ensures snapshot == Some((enrollments, progress))
    {
      snapshot := Some((enrollments, progress));
    }

    /** ROLLBACK: back to the snapshot; outside a transaction it changes nothing. */
    method Rollback()
      modifies this`snapshot, this`enrollments, this`progress
      ensures snapshot.None?
      ensures old(snapshot).Some? ==> (enrollments, progress) == old(snapshot).value
      ensures old(snapshot).None? ==> enrollments == old(enrollments) && progress == old(progress)
    {
      if snapshot.Some? {
        enrollments, progress := snapshot.value.0, snapshot.value.1;
      }
      snapshot := None;
    }

    method Commit()
      modifies this`snapshot
      ensures snapshot.None?
    {
      snapshot := None;
    }

    /**
     * POST /api/enrollments. `body` is None when request.json() throws; the
     * failing statement, if any, is `fault`.
     */
    method Post(session: Option<Session>, body: Option<Body>, g: Generated, fault: Option<Step>)
      returns (reply: Reply<Enrollment>)
      requires Valid()
      requires fault == Some(ParseJson) <==> body.None?
      modifies this
      ensures Valid() && clientsOut == old(clientsOut)
      ensures session.None? ==> reply == Fail(401, Unauthorized) && Unchanged(old(enrollments), old(progress))
      ensures session.Some? && fault == Some(ParseJson) ==>
                reply == Fail(500, "Failed to create enrollment") && Unchanged(old(enrollments), old(progress))
      ensures session.Some? && body.Some? && MissingIds(body.value) ==>
                reply == Fail(400, "Employee ID and Course ID are required")
                && Unchanged(old(enrollments), old(progress))
      ensures session.Some? && body.Some? && !MissingIds(body.value) ==>
                reply == PostOutcome(old(enrollments), body.value, session.value, g, fault)
                && (if Inserts(old(enrollments), body.value, fault)
                    then var e := NewEnrollment(body.value, session.value, g);
                         enrollments == old(enrollments) + [e] && progress == old(progress) + [NewProgress(e, g)]
                    else Unchanged(old(enrollments), old(progress)))
    {
      clientsOut := clientsOut + 1;
      if session.None? {
        reply := Fail(401, Unauthorized);
      } else if fault == Some(ParseJson) {
        Rollback();
        reply := Fail(500, "Failed to create enrollment");
      } else if MissingIds(body.value) {
        reply := Fail(400, "Employee ID and Course ID are required");
      } else {
        reply := Transaction(session.value, body.value, g, fault);
      }
      clientsOut := clientsOut - 1;
    }

    predicate Unchanged(e: seq<Enrollment>, p: seq<ProgressRow>)
      reads this
    {
      enrollments == e && progress == p
    }

    /** BEGIN through COMMIT, then the course lookup; every failure rolls back and answers 500. */
    method Transaction(session: Session, body: Body, g: Generated, fault: Option<Step>)
      returns (reply: Reply<Enrollment>)
      requires Valid() && fault != Some(ParseJson)
      modifies this`snapshot, this`enrollments, this`progress
      ensures Valid()
      ensures reply == PostOutcome(old(enrollments), body, session, g, fault)
      ensures if Inserts(old(enrollments), body, fault)
              then var e := NewEnrollment(body, session, g);
                   enrollments == old(enrollments) + [e] && progress == old(progress) + [NewProgress(e, g)]
              else enrollments == old(enrollments) && progress == old(progress)
    {
      var failed := Fail<Enrollment>(500, "Failed to create enrollment");
      if fault == Some(BeginTx) {
        Rollback();
        return failed;
      }
      Begin();
      if fault == Some(DuplicateCheck) {
        Rollback();
        return failed;
      }
      if HasOpen(enrollments, body.employeeId, body.courseId) {
        Rollback();
        return Fail(409, "Employee already enrolled in this course");
      }
      if fault == Some(InsertEnrollment) {
        Rollback();
        return failed;
      }
      var e := NewEnrollment(body, session, g);
      UniqueOpenAppend(enrollments, e);
      enrollments := enrollments + [e];
      if fault == Some(InsertProgress) {
        Rollback();
        return failed;
      }
      progress := progress + [NewProgress(e, g)];
      if fault == Some(CommitTx) {
        Rollback();
        return failed;
      }
      Commit();
      if fault.Some? {
        assert fault.value.CourseLookup?;
        // The rows are committed; the ROLLBACK in the handler's catch has no transaction to undo.
        Rollback();
        return failed;
      }
      return Ok(Created, e);
    }
  }

  predicate MissingIds(body: Body) {
    !Truthy(body.employeeId) || !Truthy(body.courseId)
  }

  /** The rows survive: the checks pass and nothing before COMMIT throws. */
  predicate Inserts(rows: seq<Enrollment>, body: Body, fault: Option<Step>) {
    !HasOpen(rows, body.employeeId, body.courseId)
    && fault !in {Some(ParseJson), Some(BeginTx), Some(DuplicateCheck), Some(InsertEnrollment), Some(InsertProgress), Some(CommitTx)}
  }

  /** The reply once the ids are present. */
  function PostOutcome(rows: seq<Enrollment>, body: Body, session: Session, g: Generated, fault: Option<Step>): Reply<Enrollment> {
    if fault in {Some(BeginTx), Some(DuplicateCheck)} then Fail(500, "Failed to create enrollment")
    else if HasOpen(rows, body.employeeId, body.courseId) then Fail(409, "Employee already enrolled in this course")
    else if fault.Some? then Fail(500, "Failed to create enrollment")
    else Ok(Created, NewEnrollment(body, session, g))
  }

  /** 201 exactly when nothing fails and no open enrollment exists; 409 only for a duplicate. */
  lemma PostOutcomeMeaning(rows: seq<Enrollment>, body: Body, session: Session, g: Generated, fault: Option<Step>)
    requires fault != Some(ParseJson)
    ensures var r := PostOutcome(rows, body, session, g, fault);
            (r.status == 201 <==> fault.None? && !HasOpen(rows, body.employeeId, body.courseId))
            && (r.status == 409 <==> fault !in {Some(BeginTx), Some(DuplicateCheck)} && HasOpen(rows, body.employeeId, body.courseId))
            && (r.status == 500 || r.status == 409 || r.status == 201)
            && (r.status == 201 ==> r.data == Some(NewEnrollment(body, session, g)))
  {
  }

  /** A failure after COMMIT answers 500 although both rows were kept. */
  lemma LateFailureKeepsRows(rows: seq<Enrollment>, body: Body, session: Session, g: Generated)
    requires !HasOpen(rows, body.employeeId, body.courseId)
    ensures Inserts(rows, body, Some(CourseLookup))
    ensures PostOutcome(rows, body, session, g, Some(CourseLookup)).status == 500
  {
  }
}

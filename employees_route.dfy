/**
 * The employees API (app/api/employees/route.js).
 *
 * POST checks the employee id, the email address and the name, in that
 * order, refuses an employee id that is already on file, and inserts the
 * row. GET builds a filtered query. The employees table is a sequence of
 * rows; gen_random_uuid and the failure of either query are inputs.
 */
module EmployeesRoute {
  import opened Wrappers
  import opened Js
  import opened Sql
  import opened Http
  import Validation
  import Strings

  // ---------------------------------------------------------------------
  // GET

  const SelectEmployees := "SELECT * FROM employees WHERE 1=1"
  const OrderByCreated := " ORDER BY created_at DESC"
  const UserClause := " AND user_id = "
  const DepartmentClause := " AND department = "
  const StatusClause := " AND registration_status = "

  function EmployeeFilters(userId: Option<string>, department: Option<string>, status: Option<string>): seq<(string, Value)> {
    Supplied(UserClause, userId) + Supplied(DepartmentClause, department) + Supplied(StatusClause, status)
  }

  /** The GET query: user, department and status filters, numbered from $1 in that order. */
  method EmployeesQuery(userId: Option<string>, department: Option<string>, status: Option<string>)
    returns (sql: seq<Piece>, params: seq<Value>)
    ensures var fs := EmployeeFilters(userId, department, status);
            sql == [Text(SelectEmployees)] + FilterPieces(fs, 0) + [Text(OrderByCreated)]
            && params == Values(fs)
    ensures Numbered(sql, params)
  {
    var q := Start(SelectEmployees);
    q := AddSupplied(q, UserClause, userId);
    q := AddSupplied(q, DepartmentClause, department);
    q := AddSupplied(q, StatusClause, status);
    FiltersInOrder(userId, department, status);
    q := Append(q, OrderByCreated);
    sql, params := q.sql, q.params;
  }

  /** The filter blocks leave the base followed by the supplied filters, numbered from $1. */
  lemma FiltersInOrder(userId: Option<string>, department: Option<string>, status: Option<string>)
    ensures var q := AddSupplied(AddSupplied(AddSupplied(Start(SelectEmployees), UserClause, userId), DepartmentClause, department), StatusClause, status);
            Valid(q) && Filtered(q, [Text(SelectEmployees)], EmployeeFilters(userId, department, status))
  {
    var head := [Text(SelectEmployees)];
    var q0 := Start(SelectEmployees);
    assert Filtered(q0, head, []);
    AddSuppliedFiltered(q0, UserClause, userId, head, []);
    var q1 := AddSupplied(q0, UserClause, userId);
    assert [] + Supplied(UserClause, userId) == Supplied(UserClause, userId);
    AddSuppliedFiltered(q1, DepartmentClause, department, head, Supplied(UserClause, userId));
    var q2 := AddSupplied(q1, DepartmentClause, department);
    AddSuppliedFiltered(q2, StatusClause, status, head, Supplied(UserClause, userId) + Supplied(DepartmentClause, department));
  }

  // ---------------------------------------------------------------------
  // POST

  datatype Employee = Employee(
    id: string, userId: Value, employeeId: Value, name: Value, department: Value, designation: Value,
    dateOfJoining: Value, contactNumber: Value, email: Value, employmentType: Value, registrationStatus: Value)

  datatype Body = Body(
    userId: Value, employeeId: Value, name: Value, department: Value, designation: Value,
    dateOfJoining: Value, contactNumber: Value, email: Value, employmentType: Value, registrationStatus: Value)

  /** The two statements that may throw after the checks pass. */
  datatype Query = LookupQuery | InsertQuery

  /** The first failing check's message: employee id, then email, then name. */
  function FirstError(body: Body): (r: Option<string>)
    ensures r.None? <==>
              body.employeeId.Str? && Strings.Utf16Length(body.employeeId.s) >= 3 && Validation.ValidateEmail(body.email)
              && !(body.name == Null || body.name == Undefined || body.name == Str(""))
    ensures (!body.employeeId.Str? || body.employeeId.s == "") ==> r == Some("Employee ID is required")
    ensures body.employeeId.Str? && 0 < Strings.Utf16Length(body.employeeId.s) < 3 ==>
              r == Some("Employee ID must be at least 3 characters")
    ensures body.employeeId.Str? && Strings.Utf16Length(body.employeeId.s) >= 3 && !Validation.ValidateEmail(body.email) ==>
              r == Some("Invalid email address")
    ensures body.employeeId.Str? && Strings.Utf16Length(body.employeeId.s) >= 3 && Validation.ValidateEmail(body.email)
            && (body.name == Null || body.name == Undefined || body.name == Str("")) ==>
              r == Some("Employee name is required")
  {
    var id := Validation.ValidateEmployeeId(body.employeeId);
    if id.Invalid? then Some(id.error)
    else if !Validation.ValidateEmail(body.email) then Some("Invalid email address")
    else
      var name := Validation.ValidateRequired(body.name, Str("Employee name"));
      assert ToText(Str("Employee name")) + " is required" == "Employee name is required";
      if name.Invalid? then Some(name.error) else None
  }

  /** Only the id, the email and the name are checked: the other fields never cause a 400. */
  lemma OnlyThreeFieldsChecked(a: Body, b: Body)
    requires a.employeeId == b.employeeId && a.email == b.email && a.name == b.name
    ensures FirstError(a) == FirstError(b)
  {
  }

  /** The stored row: the fields as given, `user_id || null`, and 'Pending' for a missing status. */
  function NewEmployee(body: Body, uuid: string): (e: Employee)
    ensures e.id == uuid && e.employeeId == body.employeeId && e.name == body.name && e.email == body.email
    ensures e.department == body.department && e.designation == body.designation
            && e.dateOfJoining == body.dateOfJoining && e.contactNumber == body.contactNumber
            && e.employmentType == body.employmentType
    ensures e.userId == (if Truthy(body.userId) then body.userId else Null)
    ensures e.registrationStatus == (if body.registrationStatus == Undefined then Str("Pending") else body.registrationStatus)
  {
    Employee(uuid, if Truthy(body.userId) then body.userId else Null, body.employeeId, body.name,
             body.department, body.designation, body.dateOfJoining, body.contactNumber, body.email,
             body.employmentType, if body.registrationStatus == Undefined then Str("Pending") else body.registrationStatus)
  }

  /** `SELECT id FROM employees WHERE employee_id = $1` finds a row. */
  predicate HasEmployeeId(rows: seq<Employee>, employeeId: Value) {
    exists i :: 0 <= i < |rows| && rows[i].employeeId == employeeId
  }

  /** No two rows share an employee id. */
  predicate UniqueIds(rows: seq<Employee>) {
    forall i, j :: 0 <= i < j < |rows| ==> rows[i].employeeId != rows[j].employeeId
  }

  lemma UniqueIdsAppend(rows: seq<Employee>, e: Employee)
    requires UniqueIds(rows) && !HasEmployeeId(rows, e.employeeId)
    ensures UniqueIds(rows + [e])
  {
    forall i, j | 0 <= i < j < |rows + [e]|
      ensures (rows + [e])[i].employeeId != (rows + [e])[j].employeeId
    {
      if j == |rows| {
        assert (rows + [e])[i] == rows[i];
      }
    }
  }

  class Employees {
    var rows: seq<Employee>

    /** The guard in POST keeps employee ids unique. */
    predicate Valid()
      reads this
    {
      UniqueIds(rows)
    }

    constructor ()
      ensures Valid() && rows == []
    {
      rows := [];
    }

    /** POST /api/employees; `body` is None when request.json() throws, `fault` the query that throws. */
    method Post(session: Option<Session>, body: Option<Body>, uuid: string, fault: Option<Query>)
      returns (reply: Reply<Employee>)
      requires Valid()
      modifies this
      ensures Valid()
      ensures session.None? ==> reply == Fail(401, Unauthorized) && rows == old(rows)
      ensures session.Some? && body.None? ==> reply == Fail(500, "Failed to create employee") && rows == old(rows)
      ensures session.Some? && body.Some? && FirstError(body.value).Some? ==>
                reply == Fail(400, FirstError(body.value).value) && rows == old(rows)
      ensures session.Some? && body.Some? && FirstError(body.value).None? ==>
                var b := body.value;
                if fault == Some(LookupQuery) then reply == Fail(500, "Failed to create employee") && rows == old(rows)
                else if HasEmployeeId(old(rows), b.employeeId) then
                  reply == Fail(409, "Employee ID already exists") && rows == old(rows)
                else if fault == Some(InsertQuery) then reply == Fail(500, "Failed to create employee") && rows == old(rows)
                else reply == Ok(201, NewEmployee(b, uuid)) && rows == old(rows) + [NewEmployee(b, uuid)]
    {
      if session.None? {
        return Fail(401, Unauthorized);
      }
      if body.None? {
        return Fail(500, "Failed to create employee");
      }
      var b := body.value;
      var error := FirstError(b);
      if error.Some? {
        return Fail(400, error.value);
      }
      if fault == Some(LookupQuery) {
        return Fail(500, "Failed to create employee");
      }
      if HasEmployeeId(rows, b.employeeId) {
        return Fail(409, "Employee ID already exists");
      }
      if fault == Some(InsertQuery) {
        return Fail(500, "Failed to create employee");
      }
      var e := NewEmployee(b, uuid);
      UniqueIdsAppend(rows, e);
      rows := rows + [e];
      return Ok(201, e);
    }
  }
}

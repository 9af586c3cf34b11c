/**
 * The certifications API (app/api/certifications/route.js).
 *
 * POST issues a certificate: a number made of the clock and Math.random,
 * an issue date of today and an expiry `expiry_years` later. GET builds a
 * filtered query. The certifications table is a sequence of rows; the
 * clock, Math.random, gen_random_uuid and whether the insert fails are
 * inputs.
 */
module CertificationsRoute {
  import opened Wrappers
  import opened Strings
  import opened Js
  import opened Sql
  import opened Http
  import opened Time
  import Utils

  // ---------------------------------------------------------------------
  // GET

  const SelectCertifications := "SELECT cert.*, … FROM certifications cert … WHERE 1=1"
  const OrderByCreated := " ORDER BY cert.created_at DESC"
  const EmployeeClause := " AND cert.employee_id = "
  const CourseClause := " AND cert.course_id = "

  function CertificationFilters(employeeId: Option<string>, courseId: Option<string>): seq<(string, Value)> {
    Supplied(EmployeeClause, employeeId) + Supplied(CourseClause, courseId)
  }

  /** The GET query: the employee filter, then the course filter, numbered from $1. */
  method CertificationsQuery(employeeId: Option<string>, courseId: Option<string>)
    returns (sql: seq<Piece>, params: seq<Value>)
    ensures var fs := CertificationFilters(employeeId, courseId);
            sql == [Text(SelectCertifications)] + FilterPieces(fs, 0) + [Text(OrderByCreated)]
            && params == Values(fs)
    ensures Numbered(sql, params)
  {
    var q := Start(SelectCertifications);
    q := AddSupplied(q, EmployeeClause, employeeId);
    q := AddSupplied(q, CourseClause, courseId);
    FiltersInOrder(employeeId, courseId);
    q := Append(q, OrderByCreated);
    sql, params := q.sql, q.params;
  }

  /** The filter blocks leave the base followed by the supplied filters, numbered from $1. */
  lemma FiltersInOrder(employeeId: Option<string>, courseId: Option<string>)
    ensures var q := AddSupplied(AddSupplied(Start(SelectCertifications), EmployeeClause, employeeId), CourseClause, courseId);
            Valid(q) && Filtered(q, [Text(SelectCertifications)], CertificationFilters(employeeId, courseId))
  {
    var head := [Text(SelectCertifications)];
    var q0 := Start(SelectCertifications);
    assert Filtered(q0, head, []);
    AddSuppliedFiltered(q0, EmployeeClause, employeeId, head, []);
    var q1 := AddSupplied(q0, EmployeeClause, employeeId);
    assert [] + Supplied(EmployeeClause, employeeId) == Supplied(EmployeeClause, employeeId);
    AddSuppliedFiltered(q1, CourseClause, courseId, head, Supplied(EmployeeClause, employeeId));
  }

  // ---------------------------------------------------------------------
  // POST

  datatype Certificate = Certificate(id: string, employeeId: Value, courseId: Value, number: string,
                                     issueDate: Date, expiryDate: Date, status: string)

  datatype Body = Body(employeeId: Value, courseId: Value, expiryYears: Value)

  /** Date.now(), Math.random().toString(36), today's date and the row's uuid. */
  datatype Generated = Generated(nowMs: nat, randomText: string, today: Date, uuid: string)

  /** `CERT-${Date.now()}-${random.substr(2, 9).toUpperCase()}`. */
  function CertificateNumber(nowMs: nat, randomText: string): string {
    "CERT-" + IntToString(nowMs) + "-" + ToUpper(Utils.Substring(randomText, 2, 11))
  }

  /**
   * The year setFullYear receives, `getFullYear() + expiry_years`, with
   * expiry_years defaulting to 2. A string is concatenated to the year's
   * digits and then read as a number; None is NaN, the Invalid Date that
   * makes toISOString throw.
   */
  function ExpiryYear(year: int, expiryYears: Value): (r: Option<int>)
    ensures expiryYears == Undefined ==> r == Some(year + 2)
    ensures expiryYears.Num? ==> r == Some(year + expiryYears.n)
    ensures expiryYears == NaN ==> r.None?
  {
    match expiryYears
    case Undefined => Some(year + 2)
    case Null => Some(year)
    case Bool(b) => Some(year + if b then 1 else 0)
    case Num(n) => Some(year + n)
    case NaN => None
    case Str(s) => TextToInteger(IntToString(year) + s)
  }

  /** The row the insert stores, or None when the expiry date is invalid. */
  function Issue(body: Body, g: Generated): (r: Option<Certificate>)
    requires ValidDate(g.today)
    ensures r.Some? <==> ExpiryYear(g.today.year, body.expiryYears).Some?
    ensures r.Some? ==>
              var c := r.value;
              c.status == "Active" && c.issueDate == g.today && c.number == CertificateNumber(g.nowMs, g.randomText)
              && c.employeeId == body.employeeId && c.courseId == body.courseId
              && c.expiryDate == AddYears(g.today, ExpiryYear(g.today.year, body.expiryYears).value - g.today.year)
  {
    match ExpiryYear(g.today.year, body.expiryYears)
    case None => None
    case Some(y) =>
      Some(Certificate(g.uuid, body.employeeId, body.courseId, CertificateNumber(g.nowMs, g.randomText),
                       g.today, AddYears(g.today, y - g.today.year), "Active"))
  }

  /** The number splits on '-' into "CERT", the decimal clock reading, and up to 9 upper-case base-36 digits. */
  lemma CertificateNumberShape(nowMs: nat, randomText: string)
    requires forall k :: 2 <= k < |randomText| ==> Utils.IsBase36Digit(randomText[k])
    ensures var parts := Split(CertificateNumber(nowMs, randomText), '-');
            |parts| == 3 && parts[0] == "CERT" && ParseInt(parts[1]) == Some(nowMs)
            && |parts[2]| <= 9
            && forall k :: 0 <= k < |parts[2]| ==> IsDigit(parts[2][k]) || 'A' <= parts[2][k] <= 'Z'
  {
    var ms := IntToString(nowMs);
    var raw := Utils.Substring(randomText, 2, 11);
    var rnd := ToUpper(raw);
    assert forall k :: 0 <= k < |raw| ==> Utils.IsBase36Digit(raw[k]);
    assert '-' !in rnd;
    assert '-' !in ms;
    assert ["CERT", ms, rnd][1..] == [ms, rnd] && [ms, rnd][1..] == [rnd];
    assert Join([ms, rnd], '-') == ms + "-" + rnd;
    assert CertificateNumber(nowMs, randomText) == Join(["CERT", ms, rnd], '-');
    SplitJoin(["CERT", ms, rnd], '-');
    ParseIntRoundTrip(nowMs);
  }

  /** The default is two years; a leap-day issue lands on 1 March of a common expiry year. */
  lemma ExpiryExamples(uuid: string, nowMs: nat, randomText: string, e: Value, c: Value)
    ensures var g := Generated(nowMs, randomText, Date(2024, 2, 29), uuid);
            var r := Issue(Body(e, c, Undefined), g);
            r.Some? && r.value.expiryDate == Date(2026, 3, 1)
    ensures var g := Generated(nowMs, randomText, Date(2024, 2, 29), uuid);
            var r := Issue(Body(e, c, Num(4)), g);
            r.Some? && r.value.expiryDate == Date(2028, 2, 29)
    ensures var g := Generated(nowMs, randomText, Date(2024, 5, 31), uuid);
            var r := Issue(Body(e, c, Num(1)), g);
            r.Some? && r.value.expiryDate == Date(2025, 5, 31)
  {
    LeapDayRollsOver(2024, 2);
  }

  /** A string "3" is appended to the year's digits: 2026 becomes 20263, not 2029. */
  lemma StringYearsConcatenate()
    ensures ExpiryYear(2026, Str("3")) == Some(20263)
  {
    YearDigits();
    assert IntToString(2026) + "3" == NatToString(20263);
    TextToIntegerOfNat(20263);
  }

  lemma YearDigits()
    ensures IntToString(2026) == "2026"
    ensures NatToString(20263) == "20263"
  {
    assert NatToString(2) == "2";
    assert NatToString(20) == "20";
    assert NatToString(202) == "202";
    assert NatToString(2026) == "2026";
  }

  class Certifications {
    var rows: seq<Certificate>

    constructor ()
      ensures rows == []
    {
      rows := [];
    }

    /** POST /api/certifications; `body` is None when request.json() throws. */
    method Post(session: Option<Session>, body: Option<Body>, g: Generated, insertFails: bool)
      returns (reply: Reply<Certificate>)
      requires ValidDate(g.today)
      modifies this
      ensures session.None? ==> reply == Fail(401, Unauthorized) && rows == old(rows)
      ensures session.Some? && body.None? ==> reply == Fail(500, "Failed to generate certification") && rows == old(rows)
      ensures session.Some? && body.Some? && (!Truthy(body.value.employeeId) || !Truthy(body.value.courseId)) ==>
                reply == Fail(400, "Employee ID and Course ID are required") && rows == old(rows)
      ensures session.Some? && body.Some? && Truthy(body.value.employeeId) && Truthy(body.value.courseId) ==>
                var c := Issue(body.value, g);
                if c.None? || insertFails then reply == Fail(500, "Failed to generate certification") && rows == old(rows)
                else reply == Ok(201, c.value) && rows == old(rows) + [c.value]
    {
      if session.None? {
        return Fail(401, Unauthorized);
      }
      if body.None? {
        return Fail(500, "Failed to generate certification");
      }
      if !Truthy(body.value.employeeId) || !Truthy(body.value.courseId) {
        return Fail(400, "Employee ID and Course ID are required");
      }
      var c := Issue(body.value, g);
      if c.None? || insertFails {
        return Fail(500, "Failed to generate certification");
      }
      rows := rows + [c.value];
      return Ok(201, c.value);
    }
  }
}

/**
 * The learning-calendar API (app/api/calendar/route.js).
 *
 * POST requires a course and both dates, refuses a start after the end, and
 * inserts the session. GET optionally restricts to upcoming sessions with a
 * clause that takes no parameter, then filters by course. The table is a
 * sequence of rows; gen_random_uuid and the failure of the insert are
 * inputs, and each date argument carries the instant `new Date` makes of it.
 */
module CalendarRoute {
  import opened Wrappers
  import opened Js
  import opened Sql
  import opened Http
  import opened Time

  // ---------------------------------------------------------------------
  // GET

  const SelectSessions := "SELECT lc.*, c.title as course_title FROM learning_calendar lc … WHERE 1=1"
  const UpcomingClause := " AND lc.scheduled_date >= CURRENT_DATE"
  const CourseClause := " AND lc.course_id = "
  const OrderByScheduled := " ORDER BY lc.scheduled_date ASC"

  /** `upcoming === 'true'`: only that exact text turns the date clause on. */
  predicate UpcomingOnly(upcoming: Option<string>) {
    upcoming == Some("true")
  }

  function UpcomingPieces(upcoming: Option<string>): seq<Piece> {
    if UpcomingOnly(upcoming) then [Text(UpcomingClause)] else []
  }

  /** The GET query: the parameterless date clause, the course filter, then the ascending order. */
  method CalendarQuery(upcoming: Option<string>, courseId: Option<string>)
    returns (sql: seq<Piece>, params: seq<Value>)
    ensures var fs := Supplied(CourseClause, courseId);
            sql == [Text(SelectSessions)] + UpcomingPieces(upcoming) + FilterPieces(fs, 0) + [Text(OrderByScheduled)]
            && params == Values(fs)
    ensures Numbered(sql, params)
  {
    var q := Start(SelectSessions);
    if upcoming == Some("true") {
      q := Append(q, UpcomingClause);
    }
    CourseFilterFirst(q, upcoming, courseId);
    q := AddSupplied(q, CourseClause, courseId);
    q := Append(q, OrderByScheduled);
    sql, params := q.sql, q.params;
  }

  /** With or without the date clause, the course filter is numbered $1. */
  lemma CourseFilterFirst(q: Query, upcoming: Option<string>, courseId: Option<string>)
    requires q == if UpcomingOnly(upcoming) then Append(Start(SelectSessions), UpcomingClause) else Start(SelectSessions)
    ensures Valid(q)
    ensures Filtered(AddSupplied(q, CourseClause, courseId), [Text(SelectSessions)] + UpcomingPieces(upcoming),
                     Supplied(CourseClause, courseId))
  {
    var head := [Text(SelectSessions)] + UpcomingPieces(upcoming);
    if !UpcomingOnly(upcoming) {
      assert head == [Text(SelectSessions)] + [];
    }
    assert Filtered(q, head, []);
    AddSuppliedFiltered(q, CourseClause, courseId, head, []);
    assert [] + Supplied(CourseClause, courseId) == Supplied(CourseClause, courseId);
  }

  /** A supplied course id is always the first and only parameter. */
  lemma CourseIsAlwaysFirst(upcoming: Option<string>, id: string)
    requires id != ""
    ensures var fs := Supplied(CourseClause, Some(id));
            FilterPieces(fs, 0) == [Text(CourseClause), Param(1)] && Values(fs) == [Str(id)]
  {
  }

  // ---------------------------------------------------------------------
  // POST

  datatype Body = Body(courseId: Value, scheduledDate: DateArg, endDate: DateArg, maxParticipants: Value, status: Value)

  datatype ScheduledSession = ScheduledSession(
    id: string, courseId: Value, scheduledDate: Value, endDate: Value, maxParticipants: Value, status: Value)

  const RequiredMessage := "Course ID, scheduled date, and end date are required"
  const OrderMessage := "End date must be after scheduled date"

  /** The 400 a body earns, if any: missing fields first, then the start after the end. */
  function ScheduleError(body: Body): (r: Option<string>)
    ensures r == Some(RequiredMessage) <==>
              !Truthy(body.courseId) || !Truthy(body.scheduledDate.raw) || !Truthy(body.endDate.raw)
    ensures r == Some(OrderMessage) <==>
              Truthy(body.courseId) && Truthy(body.scheduledDate.raw) && Truthy(body.endDate.raw)
              && Later(body.scheduledDate.at, body.endDate.at)
    ensures r.None? || r == Some(RequiredMessage) || r == Some(OrderMessage)
  {
    if !Truthy(body.courseId) || !Truthy(body.scheduledDate.raw) || !Truthy(body.endDate.raw) then Some(RequiredMessage)
    else if Later(body.scheduledDate.at, body.endDate.at) then Some(OrderMessage)
    else None
  }

  /** A session that starts and ends at the same instant is accepted. */
  lemma SameInstantAccepted(courseId: Value, raw: Value, t: int, max: Value, status: Value)
    requires Truthy(courseId) && Truthy(raw)
    ensures ScheduleError(Body(courseId, DateArg(raw, At(t)), DateArg(raw, At(t)), max, status)).None?
  {
  }

  /** Text `new Date` cannot read compares false either way, so the order check lets it through. */
  lemma UnreadableDatesAccepted(courseId: Value, a: Value, b: Value, max: Value, status: Value)
    requires Truthy(courseId) && Truthy(a) && Truthy(b)
    ensures ScheduleError(Body(courseId, DateArg(a, InvalidDate), DateArg(b, At(0)), max, status)).None?
    ensures ScheduleError(Body(courseId, DateArg(a, At(0)), DateArg(b, InvalidDate), max, status)).None?
  {
  }

  /** The row the insert stores; status defaults to 'Scheduled' only when it is missing. */
  function NewSession(body: Body, uuid: string): (s: ScheduledSession)
    ensures s.status == (if body.status == Undefined then Str("Scheduled") else body.status)
    ensures s.courseId == body.courseId && s.scheduledDate == body.scheduledDate.raw && s.endDate == body.endDate.raw
    ensures s.maxParticipants == body.maxParticipants && s.id == uuid
  {
    ScheduledSession(uuid, body.courseId, body.scheduledDate.raw, body.endDate.raw, body.maxParticipants,
                     if body.status == Undefined then Str("Scheduled") else body.status)
  }

  class Calendar {
    var rows: seq<ScheduledSession>

    constructor ()
      ensures rows == []
    {
      rows := [];
    }

    /** POST /api/calendar; `body` is None when request.json() throws. */
    method Post(user: Option<Session>, body: Option<Body>, uuid: string, insertFails: bool)
      returns (reply: Reply<ScheduledSession>)
      modifies this
      ensures user.None? ==> reply == Fail(401, Unauthorized) && rows == old(rows)
      ensures user.Some? && body.None? ==> reply == Fail(500, "Failed to schedule session") && rows == old(rows)
      ensures user.Some? && body.Some? && ScheduleError(body.value).Some? ==>
                reply == Fail(400, ScheduleError(body.value).value) && rows == old(rows)
      ensures user.Some? && body.Some? && ScheduleError(body.value).None? ==>
                if insertFails then reply == Fail(500, "Failed to schedule session") && rows == old(rows)
                else reply == Ok(201, NewSession(body.value, uuid)) && rows == old(rows) + [NewSession(body.value, uuid)]
    {
      if user.None? {
        return Fail(401, Unauthorized);
      }
      if body.None? {
        return Fail(500, "Failed to schedule session");
      }
      var error := ScheduleError(body.value);
      if error.Some? {
        return Fail(400, error.value);
      }
      if insertFails {
        return Fail(500, "Failed to schedule session");
      }
      var s := NewSession(body.value, uuid);
      rows := rows + [s];
      return Ok(201, s);
    }
  }
}

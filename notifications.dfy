/**
 * The notification store of lib/notifications.js.
 *
 * The notifications table is a sequence of rows held by a `Store`; the
 * employees table is a map from employee id to its `user_id` column. Each
 * operation's database failure is an input flag (`fails`), and the id that
 * gen_random_uuid() would produce is an input too.
 */
module Notifications {
  import opened Wrappers
  import opened Js

  datatype Notification = Notification(id: string, userId: Value, message: string, kind: string, read: bool)

  // ---------------------------------------------------------------------
  // The table as a value

  /** `SELECT COUNT(*) … WHERE user_id = u AND read = false`. */
  function Unread(rows: seq<Notification>, u: Value): (n: nat)
    ensures n <= |rows|
  {
    if rows == [] then 0
    else Unread(rows[..|rows| - 1], u) + (if rows[|rows| - 1].userId == u && !rows[|rows| - 1].read then 1 else 0)
  }

  /** The row `UPDATE … SET read = true WHERE id = id AND user_id = u` leaves at index i. */
  function MarkedRow(n: Notification, id: string, u: Value): Notification {
    if n.id == id && n.userId == u then n.(read := true) else n
  }

  function MarkedRead(rows: seq<Notification>, id: string, u: Value): (r: seq<Notification>)
    ensures |r| == |rows|
  {
    seq(|rows|, i requires 0 <= i < |rows| => MarkedRow(rows[i], id, u))
  }

  /** The row `UPDATE … SET read = true WHERE user_id = u AND read = false` leaves at index i. */
  function AllMarkedRead(rows: seq<Notification>, u: Value): (r: seq<Notification>)
    ensures |r| == |rows|
  {
    seq(|rows|, i requires 0 <= i < |rows| => if rows[i].userId == u then rows[i].(read := true) else rows[i])
  }

  /** The first row matching the update's WHERE clause: what `result.rows[0]` returns. */
  function FirstMatch(rows: seq<Notification>, id: string, u: Value): (r: Option<Notification>)
    ensures r.Some? ==> r.value in rows && r.value.id == id && r.value.userId == u
    ensures r.None? ==> forall i :: 0 <= i < |rows| ==> !(rows[i].id == id && rows[i].userId == u)
  {
    if rows == [] then None
    else if rows[0].id == id && rows[0].userId == u then Some(rows[0])
    else FirstMatch(rows[1..], id, u)
  }

  /** A row appended for user `v` adds one unread notification for `v` and none for anyone else. */
  lemma UnreadAppend(rows: seq<Notification>, n: Notification, u: Value)
    ensures Unread(rows + [n], u) == Unread(rows, u) + (if n.userId == u && !n.read then 1 else 0)
  {
    assert (rows + [n])[..|rows|] == rows;
  }

  /** Rows that agree on owner and read flag give the same count. */
  lemma {:induction false} UnreadSameFlags(a: seq<Notification>, b: seq<Notification>, u: Value)
    requires |a| == |b|
    requires forall i :: 0 <= i < |a| ==> ((a[i].userId == u && !a[i].read) <==> (b[i].userId == u && !b[i].read))
    ensures Unread(a, u) == Unread(b, u)
  {
    if a != [] {
      UnreadSameFlags(a[..|a| - 1], b[..|b| - 1], u);
    }
  }

  /** Rows with none unread for `u` count 0. */
  lemma {:induction false} UnreadNone(rows: seq<Notification>, u: Value)
    requires forall i :: 0 <= i < |rows| ==> !(rows[i].userId == u && !rows[i].read)
    ensures Unread(rows, u) == 0
  {
    if rows != [] {
      UnreadNone(rows[..|rows| - 1], u);
    }
  }

  /** Marking one row can only lower a count, and never changes another user's. */
  lemma {:induction false} MarkedReadCounts(rows: seq<Notification>, id: string, u: Value, v: Value)
    ensures Unread(MarkedRead(rows, id, u), u) <= Unread(rows, u)
    ensures v != u ==> Unread(MarkedRead(rows, id, u), v) == Unread(rows, v)
  {
    if rows != [] {
      var init := rows[..|rows| - 1];
      MarkedReadCounts(init, id, u, v);
      assert MarkedRead(rows, id, u)[..|rows| - 1] == MarkedRead(init, id, u);
    }
  }

  /** A row that is not the caller's is never touched: another user cannot mark it. */
  lemma MarkedReadOwnership(rows: seq<Notification>, id: string, u: Value)
    ensures forall i :: 0 <= i < |rows| && (rows[i].userId != u || rows[i].id != id) ==>
              MarkedRead(rows, id, u)[i] == rows[i]
    ensures forall i :: 0 <= i < |rows| && rows[i].userId == u && rows[i].id == id ==>
              MarkedRead(rows, id, u)[i] == rows[i].(read := true)
    ensures FirstMatch(rows, id, u).None? ==> MarkedRead(rows, id, u) == rows
  {
  }

  /** After marking all of u's rows, u has no unread notification. */
  lemma MarkAllClearsUnread(rows: seq<Notification>, u: Value)
    ensures Unread(AllMarkedRead(rows, u), u) == 0
  {
    UnreadNone(AllMarkedRead(rows, u), u);
  }

  /** Other users' rows, and so their counts, stay as they were. */
  lemma MarkAllKeepsOthers(rows: seq<Notification>, u: Value, v: Value)
    requires v != u
    ensures forall i :: 0 <= i < |rows| && rows[i].userId != u ==> AllMarkedRead(rows, u)[i] == rows[i]
    ensures Unread(AllMarkedRead(rows, u), v) == Unread(rows, v)
  {
    UnreadSameFlags(AllMarkedRead(rows, u), rows, v);
  }

  lemma MarkAllIdempotent(rows: seq<Notification>, u: Value)
    ensures AllMarkedRead(AllMarkedRead(rows, u), u) == AllMarkedRead(rows, u)
  {
  }

  // ---------------------------------------------------------------------
  // Messages

  function EnrollmentMessage(courseName: Value, enrollmentType: Value): string {
    "You have been enrolled in \"" + ToText(courseName) + "\" (" + ToText(enrollmentType) + ")"
  }

  function DeadlineMessage(courseName: Value, daysRemaining: Value): string {
    "Course \"" + ToText(courseName) + "\" deadline is approaching (" + ToText(daysRemaining) + " days remaining)"
  }

  function AssessmentMessage(assessmentTitle: Value, score: Value, passed: Value): string {
    if Truthy(passed) then "Congratulations! You passed \"" + ToText(assessmentTitle) + "\" with " + ToText(score) + "%"
    else "You scored " + ToText(score) + "% on \"" + ToText(assessmentTitle) + "\". Keep trying!"
  }

  function CertificationMessage(courseName: Value, certificateNumber: Value): string {
    "Congratulations! You earned a certificate for \"" + ToText(courseName) + "\" (" + ToText(certificateNumber) + ")"
  }

  /** The assessment message depends on `passed` only through its truthiness. */
  lemma AssessmentMessageByOutcome(title: Value, score: Value, passed: Value)
    ensures var m := AssessmentMessage(title, score, passed);
            var congrats := "Congratulations! You passed \"";
            Truthy(passed) <==> (|m| >= |congrats| && m[..|congrats|] == congrats)
  {
    var m := AssessmentMessage(title, score, passed);
    var congrats := "Congratulations! You passed \"";
    if !Truthy(passed) {
      assert m[0] == 'Y';
    } else {
      assert m[..|congrats|] == congrats;
    }
  }

  // ---------------------------------------------------------------------
  // The store

  /** The user a notification for `employeeId` goes to: none for a missing employee or a falsy user_id. */
  function Recipient(employees: map<int, Value>, employeeId: int): (r: Option<Value>)
    ensures r.Some? <==> employeeId in employees && Truthy(employees[employeeId])
    ensures r.Some? ==> r.value == employees[employeeId]
  {
    if employeeId !in employees then None
    else if !Truthy(employees[employeeId]) then None
    else Some(employees[employeeId])
  }

  class Store {
    var rows: seq<Notification>
    /** employees.id -> employees.user_id */
    var employees: map<int, Value>

    constructor (employees: map<int, Value>)
      ensures rows == [] && this.employees == employees
    {
      rows := [];
      this.employees := employees;
    }

    /** createNotification(userId, message, type = 'info'): a failing insert is rethrown. */
    method CreateNotification(id: string, userId: Value, message: string, kind: Option<string>, fails: bool)
      returns (r: Result<Notification>)
      modifies this`rows
      ensures fails ==> r.Failure? && rows == old(rows)
      ensures !fails ==>
                r.Success?
                && r.value == Notification(id, userId, message, if kind.None? then "info" else kind.value, false)
                && rows == old(rows) + [r.value]
    {
      if fails {
        return Failure("insert failed");
      }
      var n := Notification(id, userId, message, if kind.None? then "info" else kind.value, false);
      rows := rows + [n];
      return Success(n);
    }

    /** The part every notify* function shares: look up the user, then insert; any error gives null. */
    method Notify(employeeId: int, id: string, message: string, kind: string, fails: bool)
      returns (r: Option<Notification>)
      modifies this`rows
      ensures fails || Recipient(employees, employeeId).None? ==> r.None? && rows == old(rows)
      ensures !fails && Recipient(employees, employeeId).Some? ==>
                var n := Notification(id, Recipient(employees, employeeId).value, message, kind, false);
                r == Some(n) && rows == old(rows) + [n]
    {
      if fails {
        return None;
      }
      var user := Recipient(employees, employeeId);
      if user.None? {
        return None;
      }
      var created := CreateNotification(id, user.value, message, Some(kind), false);
      return Some(created.value);
    }

    method NotifyEnrollment(employeeId: int, courseName: Value, enrollmentType: Value, id: string, fails: bool)
      returns (r: Option<Notification>)
      modifies this`rows
      ensures fails || Recipient(employees, employeeId).None? ==> r.None? && rows == old(rows)
      ensures !fails && Recipient(employees, employeeId).Some? ==>
                var n := Notification(id, Recipient(employees, employeeId).value,
                                      EnrollmentMessage(courseName, enrollmentType), "enrollment", false);
                r == Some(n) && rows == old(rows) + [n]
    {
      r := Notify(employeeId, id, EnrollmentMessage(courseName, enrollmentType), "enrollment", fails);
    }

    method NotifyDeadlineApproaching(employeeId: int, courseName: Value, daysRemaining: Value, id: string, fails: bool)
      returns (r: Option<Notification>)
      modifies this`rows
      ensures fails || Recipient(employees, employeeId).None? ==> r.None? && rows == old(rows)
      ensures !fails && Recipient(employees, employeeId).Some? ==>
                var n := Notification(id, Recipient(employees, employeeId).value,
                                      DeadlineMessage(courseName, daysRemaining), "deadline", false);
                r == Some(n) && rows == old(rows) + [n]
    {
      r := Notify(employeeId, id, DeadlineMessage(courseName, daysRemaining), "deadline", fails);
    }

    method NotifyAssessmentResult(employeeId: int, title: Value, score: Value, passed: Value, id: string, fails: bool)
      returns (r: Option<Notification>)
      modifies this`rows
      ensures fails || Recipient(employees, employeeId).None? ==> r.None? && rows == old(rows)
      ensures !fails && Recipient(employees, employeeId).Some? ==>
                var n := Notification(id, Recipient(employees, employeeId).value,
                                      AssessmentMessage(title, score, passed), "assessment", false);
                r == Some(n) && rows == old(rows) + [n]
    {
      r := Notify(employeeId, id, AssessmentMessage(title, score, passed), "assessment", fails);
    }

    method NotifyCertification(employeeId: int, courseName: Value, certificateNumber: Value, id: string, fails: bool)
      returns (r: Option<Notification>)
      modifies this`rows
      ensures fails || Recipient(employees, employeeId).None? ==> r.None? && rows == old(rows)
      ensures !fails && Recipient(employees, employeeId).Some? ==>
                var n := Notification(id, Recipient(employees, employeeId).value,
                                      CertificationMessage(courseName, certificateNumber), "certification", false);
                r == Some(n) && rows == old(rows) + [n]
    {
      r := Notify(employeeId, id, CertificationMessage(courseName, certificateNumber), "certification", fails);
    }

    /** getUnreadCount(userId): the number of u's unread rows, 0 on a failing query. */
    method GetUnreadCount(userId: Value, fails: bool) returns (count: nat)
      ensures fails ==> count == 0
      ensures !fails ==> count == Unread(rows, userId) && count <= |rows|
    {
      if fails {
        return 0;
      }
      count := Unread(rows, userId);
    }

    /** markAsRead(id, userId): the updated row, or None (undefined) when no row is both that id and that user's. */
    method MarkAsRead(id: string, userId: Value, fails: bool) returns (r: Result<Option<Notification>>)
      modifies this`rows
      ensures fails ==> r.Failure? && rows == old(rows)
      ensures !fails ==> rows == MarkedRead(old(rows), id, userId)
      ensures !fails ==> r.Success? && (r.value.None? <==> FirstMatch(old(rows), id, userId).None?)
      ensures !fails && r.value.Some? ==> r.value.value == FirstMatch(old(rows), id, userId).value.(read := true)
    {
      if fails {
        return Failure("update failed");
      }
      var hit := FirstMatch(rows, id, userId);
      rows := MarkedRead(rows, id, userId);
      if hit.None? {
        return Success(None);
      }
      return Success(Some(hit.value.(read := true)));
    }

    /** markAllAsRead(userId): true when the update ran, false on a failing query. */
    method MarkAllAsRead(userId: Value, fails: bool) returns (ok: bool)
      modifies this`rows
      ensures ok == !fails
      ensures ok ==> rows == AllMarkedRead(old(rows), userId) && Unread(rows, userId) == 0
      ensures !ok ==> rows == old(rows)
    {
      if fails {
        return false;
      }
      MarkAllClearsUnread(rows, userId);
      rows := AllMarkedRead(rows, userId);
      return true;
    }
  }
}

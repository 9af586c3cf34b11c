/**
 * The session form of the learning calendar (components/calendar/SessionForm.jsx).
 *
 * Submitting checks the title, that a start time is chosen, and that an end
 * time, when given, is after the start, in that order. A new session for a
 * day picked on the calendar starts at 09:00 of that day; editing copies the
 * session. What `new Date` makes of the two datetime-local texts, and the
 * texts date-fns renders for an edited session's times, are inputs.
 */
module SessionForm {
  import opened Wrappers
  import opened Strings
  import opened Js
  import opened Time

  datatype Form = Form(
    title: string, description: string, courseId: string, instructorId: string, kind: string,
    startTime: string, endTime: string, location: string, meetingUrl: string, maxAttendees: Value, status: string)

  const Blank := Form("", "", "", "", "online", "", "", "", "", Str(""), "scheduled")

  /** A stored session; `startText`/`endText` are its times as `yyyy-MM-dd'T'HH:mm` renders them. */
  datatype Session = Session(
    title: Option<string>, description: Option<string>, courseId: Option<string>, instructorId: Option<string>,
    kind: Option<string>, startText: Option<string>, endText: Option<string>, location: Option<string>,
    meetingUrl: Option<string>, maxAttendees: Value, status: Option<string>)

  /** `format(selectedDate, "yyyy-MM-dd'T'09:00")`: the picked day at nine in the morning. */
  function NineOClock(d: Date): string
    requires ValidDate(d) && d.year >= 0
  {
    FormatDate(d) + "T09:00"
  }

  /** The form the effect sets up: a copy of the session, else the blank form with the picked day at 09:00. */
  function InitialForm(session: Option<Session>, selectedDate: Option<Date>): (f: Form)
    requires selectedDate.Some? ==> ValidDate(selectedDate.value) && selectedDate.value.year >= 0
    ensures session.None? && selectedDate.None? ==> f == Blank
    ensures session.None? && selectedDate.Some? ==> f == Blank.(startTime := NineOClock(selectedDate.value))
    ensures session.Some? ==>
              var s := session.value;
              f.title == OrStr(s.title, "") && f.description == OrStr(s.description, "")
              && f.courseId == OrStr(s.courseId, "") && f.instructorId == OrStr(s.instructorId, "")
              && f.kind == OrStr(s.kind, "online") && f.status == OrStr(s.status, "scheduled")
              && f.location == OrStr(s.location, "") && f.meetingUrl == OrStr(s.meetingUrl, "")
              && f.startTime == OrStr(s.startText, "") && f.endTime == OrStr(s.endText, "")
              && f.maxAttendees == (if Truthy(s.maxAttendees) then s.maxAttendees else Str(""))
  {
    if session.Some? then
      var s := session.value;
      Form(OrStr(s.title, ""), OrStr(s.description, ""), OrStr(s.courseId, ""), OrStr(s.instructorId, ""),
           OrStr(s.kind, "online"), OrStr(s.startText, ""), OrStr(s.endText, ""), OrStr(s.location, ""),
           OrStr(s.meetingUrl, ""), if Truthy(s.maxAttendees) then s.maxAttendees else Str(""),
           OrStr(s.status, "scheduled"))
    else if selectedDate.Some? then Blank.(startTime := NineOClock(selectedDate.value))
    else Blank
  }

  /** The prefilled start is the day's date, a 'T', and 09:00. */
  lemma PrefillShape(d: Date)
    requires ValidDate(d) && d.year >= 0
    ensures var t := InitialForm(None, Some(d)).startTime;
            |t| >= 16 && t[|t| - 6..] == "T09:00" && t[..|t| - 6] == FormatDate(d)
  {
    var t := InitialForm(None, Some(d)).startTime;
    assert t == FormatDate(d) + "T09:00";
    assert |Pad4(d.year)| >= 4 && |Pad2(d.month)| >= 2 && |Pad2(d.day)| >= 2;
  }

  /** `new Date(end) <= new Date(start)`: false when either is an Invalid Date. */
  predicate NotAfter(a: Instant, b: Instant) {
    a.At? && b.At? && a.ms <= b.ms
  }

  const TitleMessage := "Please enter a session title"
  const StartMessage := "Please select a start time"
  const OrderMessage := "End time must be after start time"

  /** handleSubmit's first failing check; None lets onSubmit run. */
  function SubmitError(f: Form, startAt: Instant, endAt: Instant): (r: Option<string>)
    ensures r == Some(TitleMessage) <==> IsBlank(f.title)
    ensures r == Some(StartMessage) <==> !IsBlank(f.title) && f.startTime == ""
    ensures r == Some(OrderMessage) <==>
              !IsBlank(f.title) && f.startTime != "" && f.endTime != "" && NotAfter(endAt, startAt)
    ensures r.None? <==>
              !IsBlank(f.title) && f.startTime != "" && (f.endTime == "" || !NotAfter(endAt, startAt))
  {
    TrimEmptyIffBlank(f.title);
    if Trim(f.title) == "" then Some(TitleMessage)
    else if f.startTime == "" then Some(StartMessage)
    else if f.endTime != "" && NotAfter(endAt, startAt) then Some(OrderMessage)
    else None
  }

  /** Without an end time only the title and the start are checked. */
  lemma EmptyEndPasses(f: Form, startAt: Instant, endAt: Instant)
    requires !IsBlank(f.title) && f.startTime != "" && f.endTime == ""
    ensures SubmitError(f, startAt, endAt).None?
  {
  }

  /** An end at the start instant is refused; one a millisecond later is accepted. */
  lemma EndStrictlyAfterStart(f: Form, t: int)
    requires !IsBlank(f.title) && f.startTime != "" && f.endTime != ""
    ensures SubmitError(f, At(t), At(t)) == Some(OrderMessage)
    ensures SubmitError(f, At(t), At(t + 1)).None?
  {
  }

  /** The location input is shown for in-person and hybrid sessions. */
  predicate ShowsLocation(kind: string) {
    kind == "in_person" || kind == "hybrid"
  }

  /** The meeting URL input is shown for online and hybrid sessions. */
  predicate ShowsMeetingUrl(kind: string) {
    kind == "online" || kind == "hybrid"
  }

  /** A hybrid session shows both; each other kind shows at most one; the default kind shows the URL. */
  lemma TypeDependentFields(kind: string)
    ensures ShowsLocation(kind) && ShowsMeetingUrl(kind) <==> kind == "hybrid"
    ensures ShowsLocation(kind) || ShowsMeetingUrl(kind) <==> kind in ["in_person", "online", "hybrid"]
    ensures ShowsMeetingUrl(Blank.kind) && !ShowsLocation(Blank.kind)
  {
  }
}

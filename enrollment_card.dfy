/**
 * An enrollment's card (components/enrollments/EnrollmentCard.jsx).
 *
 * The card shows the status badge (unknown statuses look enrolled), the
 * progress, the dates, the days left before the expiry, and the buttons the
 * status allows. The status-update handler is a React component state: the
 * `isUpdating` flag, the calls made to the `onUpdate` callback, and the errors
 * logged when a call fails. The callback itself, the current time and the
 * date formatting are outside the model: the callback's outcome and the
 * time are parameters.
 */
module EnrollmentCard {
  import opened Wrappers
  import opened Js
  import opened Time

  /** A STATUS_CONFIG entry (the icon is left out). */
  datatype Config = Config(caption: string, color: string)

  const StatusConfigs: map<string, Config> := map[
    "enrolled" := Config("Enrolled", "bg-blue-100 text-blue-800 border-blue-200"),
    "in_progress" := Config("In Progress", "bg-yellow-100 text-yellow-800 border-yellow-200"),
    "completed" := Config("Completed", "bg-green-100 text-green-800 border-green-200"),
    "dropped" := Config("Dropped", "bg-red-100 text-red-800 border-red-200"),
    "expired" := Config("Expired", "bg-gray-100 text-gray-800 border-gray-200")]

  /**
   * The enrollment shown; `completedAt` and `expiresAt` are the raw columns,
   * `expiry` is what `new Date(expires_at)` makes of the latter.
   */
  datatype Enrollment = Enrollment(
    id: Option<string>, status: Option<string>, progress: Option<int>,
    completedAt: Value, expiresAt: Value, expiry: Instant,
    courseTitle: Option<string>, employeeName: Option<string>)

  /** `STATUS_CONFIG[status] || STATUS_CONFIG.enrolled`. */
  function StatusConfig(e: Enrollment): (c: Config)
    ensures e.status.Some? && e.status.value in StatusConfigs ==> c == StatusConfigs[e.status.value]
    ensures !(e.status.Some? && e.status.value in StatusConfigs) ==> c == StatusConfigs["enrolled"]
  {
    if e.status.Some? && e.status.value in StatusConfigs then StatusConfigs[e.status.value] else StatusConfigs["enrolled"]
  }

  /** `progress || 0`. */
  function Progress(e: Enrollment): (p: int)
    ensures e.progress.Some? && e.progress.value != 0 ==> p == e.progress.value
    ensures e.progress.None? ==> p == 0
  {
    OrInt(e.progress, 0)
  }

  /** The title and the subtitle, with their placeholders. */
  function Heading(e: Enrollment): (h: (string, string))
    ensures e.courseTitle.Some? && e.courseTitle.value != "" ==> h.0 == e.courseTitle.value
    ensures (e.courseTitle.None? || e.courseTitle.value == "") ==> h.0 == "Course Title"
    ensures e.employeeName.Some? && e.employeeName.value != "" ==> h.1 == e.employeeName.value
    ensures (e.employeeName.None? || e.employeeName.value == "") ==> h.1 == "Employee Name"
  {
    (OrStr(e.courseTitle, "Course Title"), OrStr(e.employeeName, "Employee Name"))
  }

  /** An unknown or missing status badge reads 'Enrolled'; the known ones read their own captions. */
  lemma StatusFallback(e: Enrollment)
    ensures StatusConfig(e) in StatusConfigs.Values
    ensures e.status.None? || e.status == Some("archived") ==> StatusConfig(e).caption == "Enrolled"
    ensures e.status == Some("dropped") ==> StatusConfig(e).caption == "Dropped"
    ensures e.progress.None? || e.progress == Some(0) ==> Progress(e) == 0
  {
    assert "enrolled" in StatusConfigs;
  }

  // ---------------------------------------------------------------------
  // Days left

  /** getDaysRemaining: null without an expiry, NaN for an unreadable one, else ⌈days⌉. */
  function DaysRemaining(e: Enrollment, now: int): (r: Value)
    ensures !Truthy(e.expiresAt) ==> r == Null
    ensures Truthy(e.expiresAt) && e.expiry == InvalidDate ==> r == NaN
    ensures Truthy(e.expiresAt) && e.expiry.At? ==> r.Num? && (r.n - 1) * MsPerDay < e.expiry.ms - now <= r.n * MsPerDay
  {
    if !Truthy(e.expiresAt) then Null
    else if e.expiry.InvalidDate? then NaN
    else Num(DaysUntil(e.expiry.ms, now))
  }

  /** The expiry line: a count of days left, or the date once it has passed. */
  datatype ExpiryLine = NoExpiryLine | DaysLeft(days: int, red: bool) | ExpiryDate(red: bool)

  /** `daysRemaining && daysRemaining < 7`, as written: 0 is falsy, so an expiry 0 days away is not red. */
  predicate RedAsWritten(days: Value) {
    Truthy(days) && days.Num? && days.n < 7
  }

  /** Red when fewer than seven days are left, 0 included. */
  predicate Red(days: Value) {
    days.Num? && days.n < 7
  }

  lemma RedMissesDayZero()
    ensures !RedAsWritten(Num(0)) && RedAsWritten(Num(1)) && Red(Num(0))
    ensures forall d: Value :: d != Num(0) ==> (RedAsWritten(d) <==> Red(d))
  {
  }

  /** The expiry is shown only while the enrollment is not completed; the count only while it is not past. */
  function Expiry(e: Enrollment, now: int): (l: ExpiryLine)
    ensures l != NoExpiryLine <==> Truthy(e.expiresAt) && !Truthy(e.completedAt)
    ensures l.DaysLeft? ==> l.days >= 0 && DaysRemaining(e, now) == Num(l.days)
    ensures l.ExpiryDate? ==> !(DaysRemaining(e, now).Num? && DaysRemaining(e, now).n >= 0)
    ensures l != NoExpiryLine ==> (l.red <==> Red(DaysRemaining(e, now)))
  {
    if !Truthy(e.expiresAt) || Truthy(e.completedAt) then NoExpiryLine
    else
      var d := DaysRemaining(e, now);
      if d.Num? && d.n >= 0 then DaysLeft(d.n, Red(d)) else ExpiryDate(Red(d))
  }

  /** An expiry today, tomorrow or past is red and at a week it is not; an unreadable one shows its date. */
  lemma ExpiryExamples(e: Enrollment, now: int)
    requires Truthy(e.expiresAt) && !Truthy(e.completedAt)
    ensures e.expiry == At(now) ==> Expiry(e, now) == DaysLeft(0, true)
    ensures e.expiry == At(now + 1) ==> Expiry(e, now) == DaysLeft(1, true)
    ensures e.expiry == At(now + 7 * MsPerDay) ==> Expiry(e, now) == DaysLeft(7, false)
    ensures e.expiry == At(now - MsPerDay - 1) ==> Expiry(e, now) == ExpiryDate(true)
    ensures e.expiry == InvalidDate ==> Expiry(e, now) == ExpiryDate(false)
  {
  }

  // ---------------------------------------------------------------------
  // The buttons

  datatype Action = MarkComplete | StartCourse | ViewDetails | Remove

  /** The footer's buttons, in order; the status buttons look at the raw status, not the badge's fallback. */
  function Actions(e: Enrollment, hasOnView: bool, hasOnDelete: bool): seq<Action> {
    (if e.status == Some("in_progress") then [MarkComplete] else [])
    + (if e.status == Some("enrolled") then [StartCourse] else [])
    + (if hasOnView then [ViewDetails] else [])
    + (if hasOnDelete && e.status != Some("completed") then [Remove] else [])
  }

  /** The status a button asks for. */
  function Target(a: Action): Option<string> {
    match a
    case MarkComplete => Some("completed")
    case StartCourse => Some("in_progress")
    case _ => None
  }

  /** A button waits while an update is in flight; View Details never does. */
  predicate Disabled(a: Action, isUpdating: bool) {
    a != ViewDetails && isUpdating
  }

  /**
   * In progress offers only the move to completed, enrolled only the move
   * to in progress, any other status none; Remove is there unless the
   * enrollment is completed.
   */
  lemma ActionsOffered(e: Enrollment, hasOnView: bool, hasOnDelete: bool)
    ensures var acts := Actions(e, hasOnView, hasOnDelete);
            (forall a :: a in acts && Target(a).Some? ==>
               (e.status == Some("in_progress") && Target(a) == Some("completed"))
               || (e.status == Some("enrolled") && Target(a) == Some("in_progress")))
            && (e.status == Some("in_progress") ==> MarkComplete in acts)
            && (e.status == Some("enrolled") ==> StartCourse in acts)
            && (Remove in acts <==> hasOnDelete && e.status != Some("completed"))
            && (ViewDetails in acts <==> hasOnView)
  {
  }

  /** A status the badge shows as enrolled without being 'enrolled' offers no status change. */
  lemma UnknownStatusOffersNoChange(e: Enrollment, hasOnView: bool, hasOnDelete: bool)
    requires e.status.None? || e.status.value !in StatusConfigs
    ensures StatusConfig(e).caption == "Enrolled"
    ensures forall a :: a in Actions(e, hasOnView, hasOnDelete) ==> Target(a).None?
  {
    assert "enrolled" in StatusConfigs;
  }

  // ---------------------------------------------------------------------
  // The update handler

  /** A call `onUpdate(enrollment.id, { status })`. */
  datatype StatusUpdate = StatusUpdate(id: Option<string>, status: string)

  class Card {
    const enrollment: Enrollment
    /** Whether the parent passed an `onUpdate` callback. */
    const canUpdate: bool
    var isUpdating: bool
    /** The callback's calls so far. */
    var updates: seq<StatusUpdate>
    /** The failures logged with console.error so far. */
    var failures: nat

    /** The flag is up only while a call is outstanding. */
    ghost predicate Valid()
      reads this
    {
      isUpdating ==> canUpdate && |updates| > 0
    }

    constructor(enrollment: Enrollment, canUpdate: bool)
      ensures this.enrollment == enrollment && this.canUpdate == canUpdate
      ensures !isUpdating && updates == [] && failures == 0
      ensures Valid()
    {
      this.enrollment := enrollment;
      this.canUpdate := canUpdate;
      isUpdating := false;
      updates := [];
      failures := 0;
    }

    /** handleStatusUpdate up to the `await`: without a callback nothing happens. */
    method BeginStatusUpdate(newStatus: string) returns (started: bool)
      requires Valid()
      modifies this
      ensures Valid()
      ensures started == canUpdate
      ensures !canUpdate ==> isUpdating == old(isUpdating) && updates == old(updates) && failures == old(failures)
      ensures canUpdate ==> isUpdating && updates == old(updates) + [StatusUpdate(enrollment.id, newStatus)]
                            && failures == old(failures)
    {
      if !canUpdate {
        return false;
      }
      isUpdating := true;
      updates := updates + [StatusUpdate(enrollment.id, newStatus)];
      started := true;
    }

    /** The `catch` and `finally` once the call settles: a failure is logged, and the flag drops either way. */
    method FinishStatusUpdate(failed: bool)
      requires Valid() && isUpdating
      modifies this
      ensures Valid()
      ensures !isUpdating && updates == old(updates)
      ensures failures == old(failures) + (if failed then 1 else 0)
    {
      if failed {
        failures := failures + 1;
      }
      isUpdating := false;
    }

    /** The whole handler, for a call that succeeds or fails. */
    method HandleStatusUpdate(newStatus: string, failed: bool)
      requires Valid()
      modifies this
      ensures Valid()
      ensures !canUpdate ==> isUpdating == old(isUpdating) && updates == old(updates) && failures == old(failures)
      ensures canUpdate ==> !isUpdating && updates == old(updates) + [StatusUpdate(enrollment.id, newStatus)]
                            && failures == old(failures) + (if failed then 1 else 0)
    {
      var started := BeginStatusUpdate(newStatus);
      if started {
        FinishStatusUpdate(failed);
      }
    }

    /** Pressing an enabled status button asks for the button's status. */
    method Press(a: Action, hasOnView: bool, hasOnDelete: bool, failed: bool)
      requires Valid()
      requires a in Actions(enrollment, hasOnView, hasOnDelete) && !Disabled(a, isUpdating)
      requires Target(a).Some?
      modifies this
      ensures Valid() && !isUpdating
      ensures canUpdate ==> updates == old(updates) + [StatusUpdate(enrollment.id, Target(a).value)]
      ensures !canUpdate ==> updates == old(updates)
    {
      HandleStatusUpdate(Target(a).value, failed);
    }
  }
}

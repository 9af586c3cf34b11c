# A verified model of a learning-management application's decision logic

The application is a Next.js learning-management system. It manages employees, courses, enrollments, assessments, certifications, a calendar of training sessions, notifications and reports. Most of it is API route handlers that check a request, run parameterised SQL and answer JSON, plus React screens that call them. This project models, in Dafny, the parts of it that make decisions, and proves what those decisions guarantee:

- **Course recommendations** (`Recommendations`, lib/ai-recommendations.js). Candidates are merged from the department, role and trending pools. Completed and already-chosen courses are skipped, each pool's rank gives a score, and the list is sorted stably and cut to ten. A learning path then lists the current courses followed by the top five recommendations.
- **API routes.** Enrollment creation is one transaction (`EnrollmentsRoute`): refuse a duplicate open enrollment, insert the enrollment and its progress row, or roll back. Certificates are issued with a number and an expiry (`CertificationsRoute`). The POST check chains of the employees, calendar and registration routes come next (`EmployeesRoute`, `CalendarRoute`, `RegisterRoute`). Last is the GET query builder with its numbered `$k` placeholders (`Sql`).
- **The notification store** (`Notifications`, lib/notifications.js). It supports insert, the notify helpers, an owner-guarded mark-read, mark-all-read and the unread count.
- **Client logic.**
  - Assessments: grading and the countdown (`AssessmentInterface`), and the authoring form's question edits and checks (`AssessmentForm`).
  - The employee and session forms (`EmployeeForm`, `SessionForm`).
  - Tables and reports: the certification status classification (`CertificationTable`), the generic table's filter, sort and paging state (`DataTable`), and the two reports with their totals and CSV export (`CourseAnalytics`, `EmployeeReport`).
  - Small screens: the assessments list (`AssessmentTable`), the activity timeline grouped by day (`ProgressTimeline`), the enrollment card's transitions (`EnrollmentCard`) and the sidebar's active-entry rule (`Sidebar`).
- **Shared helpers.** The validators (`Validation`), the formatting helpers (`Utils`) and bearer-token extraction (`Jwt`).

Modules sit side by side. Shared modules model ECMAScript behaviour that the code relies on:

- `Js`: truthiness, `===`, `||` fallbacks;
- `Strings`: trim, ASCII case mapping, split and join, integer text, parseInt with its `0x` prefix, and `length` in UTF-16 code units;
- `Sorting`: `Array.prototype.sort` as a stable sort;
- `Time`: millisecond instants, whole-day differences, `setFullYear`;
- `Sql`: SQL text built piece by piece.

Database tables are sequences held by classes whose methods change them; React state is a class whose methods are the handlers. Database failures, the clock, `Math.random`, `gen_random_uuid()`, password hashing and token signing are inputs or parameters.

## Model

| member | source | states |
|---|---|---|
| Recommendations.WithoutCompleted | lib/ai-recommendations.js:50-52 | every course kept by the filter comes from the pool and is not completed |
| Recommendations.DepartmentPass | lib/ai-recommendations.js:58-65 | the department pass pushes one entry per filtered department course |
| Recommendations.Take | lib/ai-recommendations.js:105 | `slice(0, n)` is the prefix of length min(n, length) |
| Recommendations.GetAIRecommendations | lib/ai-recommendations.js:3-110 | without a database failure the push loops, the sort and the slice compute the specification `Recommend`; an unknown employee raises 'Employee not found', and a failing employee lookup or a failing later query raises that query's error, with no list |
| Recommendations.DepartmentScores | lib/ai-recommendations.js:58-65 | the i-th department course, counted after the completed filter, scores 90 − 5i with the department reason |
| Recommendations.RolePassExtends | lib/ai-recommendations.js:68-77 | the role pass only appends to the list it starts from |
| Recommendations.TrendingPassExtends | lib/ai-recommendations.js:91-100 | the trending pass only appends to the list it starts from |
| Recommendations.RolePassEntries | lib/ai-recommendations.js:68-77 | every entry the role pass adds is the entry of a filtered role course at its own index (75 − 5·index), and afterwards every role course is present |
| Recommendations.RolePassStep | lib/ai-recommendations.js:68-77 | one iteration of the role loop keeps both facts of RolePassEntries |
| Recommendations.RoleSkipRule | lib/ai-recommendations.js:69-76 | a role course is added exactly when no entry with its id is present yet, and its index is used up either way |
| Recommendations.TrendingPassEntries | lib/ai-recommendations.js:91-100 | trending entries are never completed courses and score 60 − 5·index over the raw rows, before the skips |
| Recommendations.SkippedRoleCourseConsumesIndex | lib/ai-recommendations.js:68-76 | when the first role course is already listed, the second one scores 70, not 75 |
| Recommendations.MergedNotCompleted | lib/ai-recommendations.js:50-92 | no entry of the merged list is a completed course |
| Recommendations.WithoutCompletedDistinct | lib/ai-recommendations.js:51-52 | the completed filter keeps a duplicate-free pool duplicate-free |
| Recommendations.RolePassDistinct | lib/ai-recommendations.js:69 | the role pass keeps the list free of repeated course ids |
| Recommendations.TrendingPassDistinct | lib/ai-recommendations.js:92 | the trending pass keeps the list free of repeated course ids |
| Recommendations.MergedDistinct | lib/ai-recommendations.js:34-92 | with distinct department rows, no course id occurs twice in the merged list |
| Recommendations.ScoreFirstIsTotalPreorder | lib/ai-recommendations.js:103 | the score comparator is a consistent total preorder, so the ES2019 stable sort is well defined |
| Recommendations.RecommendProperties | lib/ai-recommendations.js:103-105 | the result has min(10, merged) entries with non-increasing scores, all from the merged list, none completed, no course twice, and entries of equal score in pool order |
| Recommendations.TieKeepsPoolOrder | lib/ai-recommendations.js:61-103 | the fourth department course and the first role course both score 75, and the department one stays first |
| Recommendations.GenerateLearningPath | lib/ai-recommendations.js:138-166 | the path is `IsLearningPath`: step i is current course i as a 'high', 'in_progress' step with progress defaulting to 0, followed by the first min(5, \|recs\|) recommendations in order, the first two 'high' and the rest 'medium', progress 0; length \|current\| + min(5, \|recs\|) |
| Recommendations.GetPersonalizedLearningPath | lib/ai-recommendations.js:112-136 | an error of getAIRecommendations or of the progress query propagates as a failure; with neither, the plan carries the current courses, the recommendations `Recommend` computes, and the path that is `IsLearningPath` of the two |
| EnrollmentsRoute.AddLimit | app/api/enrollments/route.js:68-72 | a supplied limit appends ` LIMIT $n` for the next number and pushes the parsed limit, keeping the counter invariant |
| EnrollmentsRoute.LimitValueExamples | app/api/enrollments/route.js:71 | parseInt reads a limit of '0x10' as hexadecimal 16, and 'ten' as NaN |
| EnrollmentsRoute.EnrollmentsQuery | app/api/enrollments/route.js:35-72 | the text is the base, the supplied course, employee and status filters in that order, ORDER BY, then LIMIT; `$k` names the k-th parameter for every k, so the last placeholder is the number of parameters |
| EnrollmentsRoute.FiltersInOrder | app/api/enrollments/route.js:48-64 | the three filter blocks leave the base followed by the supplied filters, numbered from $1 |
| EnrollmentsRoute.LimitLast | app/api/enrollments/route.js:66-72 | ORDER BY comes after the filters and the LIMIT placeholder is numbered after all of them |
| EnrollmentsRoute.NewEnrollment | app/api/enrollments/route.js:99-155 | the new row is 'Pending' with completion 0, enrolled by the session's user, for the body's employee and course, with the type defaulting to 'Manual' |
| EnrollmentsRoute.NewProgress | app/api/enrollments/route.js:158-165 | the progress row has progress 0 and points at the new enrollment's id, employee and course |
| EnrollmentsRoute.UniqueOpenAppend | app/api/enrollments/route.js:118-155 | an insert the duplicate check let through keeps at most one Pending or Active enrollment per employee and course |
| EnrollmentsRoute.ClosedDoNotBlock | app/api/enrollments/route.js:119-121 | Completed, Cancelled and Expired enrollments never block a new one |
| EnrollmentsRoute.Tables.constructor | app/api/enrollments/route.js:90 | empty tables, no open transaction, no client checked out |
| EnrollmentsRoute.Tables.Begin | app/api/enrollments/route.js:115 | BEGIN records the tables as they stand |
| EnrollmentsRoute.Tables.Rollback | app/api/enrollments/route.js:126-182 | ROLLBACK restores the recorded tables; outside a transaction it changes nothing |
| EnrollmentsRoute.Tables.Commit | app/api/enrollments/route.js:167 | COMMIT closes the transaction and keeps the tables |
| EnrollmentsRoute.Tables.Post | app/api/enrollments/route.js:89-191 | no session gives 401 and a body that fails to parse 500, a missing id 400 before BEGIN, all without writes; otherwise the reply is the transaction's outcome and exactly one enrollment and one progress row are added when it keeps them; the client is released on every path and uniqueness of open enrollments is preserved |
| EnrollmentsRoute.Tables.Transaction | app/api/enrollments/route.js:115-190 | a duplicate rolls back with 409, any failure before COMMIT rolls back with 500 and neither table changed, and success adds both rows |
| EnrollmentsRoute.PostOutcomeMeaning | app/api/enrollments/route.js:125-187 | 201 exactly when nothing fails and no open enrollment exists, with the new row as data; 409 exactly for a duplicate found by a working check; every other reply is 500 |
| EnrollmentsRoute.LateFailureKeepsRows | app/api/enrollments/route.js:167-187 | a failure of the course lookup after COMMIT answers 500 although both rows were kept |
| Sql.Consecutive | app/api/enrollments/route.js:46-49 | the numbers 1 … n in order |
| Sql.FilterPieces | app/api/enrollments/route.js:48-64 | each present filter contributes its clause and one placeholder |
| Sql.Supplied | app/api/enrollments/route.js:48-60 | a filter is applied exactly when its search parameter is present and non-empty, with that text as its value |
| Sql.Values | app/api/enrollments/route.js:51-63 | the parameters are the filters' values, in order |
| Sql.FilterPiecesConcat | app/api/enrollments/route.js:48-64 | the numbering continues across consecutive groups of filters |
| Sql.FilterPiecesNumbered | app/api/enrollments/route.js:49-50 | the filters' placeholders are start + 1, …, start + n, in order |
| Sql.FiltersNumbered | app/api/enrollments/route.js:45-66 | a base, the filters and a tail without placeholders form a query in which `$k` names the k-th parameter |
| Sql.Start | app/api/enrollments/route.js:35-46 | the base text with no parameters and a zero counter satisfies the counter invariant |
| Sql.Append | app/api/enrollments/route.js:66 | appending text without a placeholder keeps the parameters and the invariant |
| Sql.AddParam | app/api/enrollments/route.js:49-51 | `paramCount++`, the clause with `$paramCount`, and one pushed value, keeping the invariant |
| Sql.AddSupplied | app/api/enrollments/route.js:48-52 | a filter block, applied or not, keeps the counter invariant |
| Sql.AddSuppliedFiltered | app/api/enrollments/route.js:48-64 | a supplied filter joins the ones before it, an absent one leaves the query as it was |
| Notifications.Unread | lib/notifications.js:125 | the unread count of a user is at most the number of rows |
| Notifications.MarkedRead | lib/notifications.js:138 | the conditional update keeps the number of rows |
| Notifications.AllMarkedRead | lib/notifications.js:151 | marking all of a user's rows read keeps the number of rows |
| Notifications.FirstMatch | lib/notifications.js:138-141 | the returned row is one matching both the id and the user; none is returned only when no row matches both |
| Notifications.UnreadAppend | lib/notifications.js:6-7 | an inserted row adds one to its user's unread count exactly when it is unread |
| Notifications.MarkedReadCounts | lib/notifications.js:135-146 | markAsRead never raises the caller's unread count and leaves every other user's count unchanged |
| Notifications.MarkedReadOwnership | lib/notifications.js:138 | only rows matching both id and user become read, and nothing else in them changes; with no matching row the table is unchanged |
| Notifications.MarkAllClearsUnread | lib/notifications.js:148-154 | after markAllAsRead(u), u has no unread rows |
| Notifications.MarkAllKeepsOthers | lib/notifications.js:151 | other users' rows and unread counts are unchanged |
| Notifications.MarkAllIdempotent | lib/notifications.js:148-159 | marking all read twice is the same as once |
| Notifications.AssessmentMessageByOutcome | lib/notifications.js:86-88 | the message starts with the congratulation exactly when `passed` is truthy |
| Notifications.Recipient | lib/notifications.js:26-34 | a notification has a recipient exactly when the employee exists and its user_id is truthy |
| Notifications.Store.constructor | lib/notifications.js:1 | an empty notifications table over the given employees |
| Notifications.Store.CreateNotification | lib/notifications.js:3-16 | a failing insert is rethrown and writes nothing; otherwise exactly one unread row with the given user, message and type (default 'info') is appended and returned |
| Notifications.Store.Notify | lib/notifications.js:18-42 | the shared shape of the notify functions: no recipient or a failure returns null and writes nothing; otherwise exactly one row for the recipient is appended |
| Notifications.Store.NotifyEnrollment | lib/notifications.js:18-42 | an 'enrollment' row with the enrolment message, under the shared rule |
| Notifications.Store.NotifyDeadlineApproaching | lib/notifications.js:44-67 | a 'deadline' row with the days-remaining message, under the shared rule |
| Notifications.Store.NotifyAssessmentResult | lib/notifications.js:69-95 | an 'assessment' row whose message depends on `passed`, under the shared rule |
| Notifications.Store.NotifyCertification | lib/notifications.js:97-120 | a 'certification' row with the certificate message, under the shared rule |
| Notifications.Store.GetUnreadCount | lib/notifications.js:122-133 | the number of the user's unread rows, and 0 on a failure; the table is not changed |
| Notifications.Store.MarkAsRead | lib/notifications.js:135-146 | a failure is rethrown with no change; otherwise only rows matching id and user become read, and the result is the first such row, or nothing |
| Notifications.Store.MarkAllAsRead | lib/notifications.js:148-159 | true and every row of the user read afterwards, or false with the table unchanged on a failure |
| CertificationsRoute.CertificationsQuery | app/api/certifications/route.js:31-55 | the base, the supplied employee filter, then the course filter, then ORDER BY, with placeholders consecutive from $1 naming the parameters |
| CertificationsRoute.FiltersInOrder | app/api/certifications/route.js:43-53 | the two filter blocks leave the base followed by the supplied filters, numbered from $1 |
| CertificationsRoute.ExpiryYear | app/api/certifications/route.js:80-92 | the year advances by 2 when expiry_years is absent, by the number when it is one, and an unreadable value gives an invalid date |
| CertificationsRoute.Issue | app/api/certifications/route.js:89-101 | an 'Active' row for the body's employee and course, issued today, numbered from the clock and the random text, expiring the given number of years later on the same month and day; no row for an invalid expiry |
| CertificationsRoute.CertificateNumberShape | app/api/certifications/route.js:89 | the number splits on '-' into 'CERT', the decimal clock reading, and at most 9 characters from 0-9 and A-Z |
| CertificationsRoute.ExpiryExamples | app/api/certifications/route.js:80-92 | the default is two years, and a 29 February issue lands on 1 March of a common expiry year and stays on 29 February in a leap one |
| CertificationsRoute.StringYearsConcatenate | app/api/certifications/route.js:92 | expiry_years sent as the text "3" is appended to the year's digits: 2026 becomes 20263 |
| CertificationsRoute.Certifications.constructor | app/api/certifications/route.js:94 | an empty certifications table |
| CertificationsRoute.Certifications.Post | app/api/certifications/route.js:72-114 | 401 without a session, 500 for a body that fails to parse, 400 for a missing id, all without writes; otherwise 201 with exactly one issued row appended, or 500 and no row when the expiry date or the insert fails |
| CertificationTable.DaysUntilExpiry | components/certifications/CertificationTable.jsx:93-99 | null without an expiry, NaN for an unreadable one, otherwise the whole days left rounded up |
| CertificationTable.GetStatus | components/certifications/CertificationTable.jsx:41-52 | 'revoked' wins whatever the expiry; no expiry is active; otherwise fewer than 0 days left is expired, 0 to 30 expiring soon, more than 30 active, and an unreadable expiry active |
| CertificationTable.StatusHasConfig | components/certifications/CertificationTable.jsx:12-174 | the computed status always names a STATUS_CONFIG entry, so the badge lookup never fails |
| CertificationTable.ExpiryThresholds | components/certifications/CertificationTable.jsx:47-51 | expiry now or exactly 30 days ahead is expiring soon, a millisecond later active, a day past expired, an unreadable date active |
| CertificationTable.Listed | components/certifications/CertificationTable.jsx:54-68 | the filter never lengthens the list |
| CertificationTable.ListedMeaning | components/certifications/CertificationTable.jsx:54-68 | a row is listed exactly when its certificate matches both the search (name, employee or course) and the status filter, carrying the status computed for it |
| CertificationTable.NoFilterListsAll | components/certifications/CertificationTable.jsx:60-65 | no search and the 'all' filter list every certificate |
| CertificationTable.Count | components/certifications/CertificationTable.jsx:269-277 | a summary count is at most the number of certificates |
| CertificationTable.SummaryCounts | components/certifications/CertificationTable.jsx:269-277 | over the unfiltered list, the three counts add up to the certificates that are not revoked, so a revoked one is in none of them |
| CertificationTable.HandleSortCertifications | components/certifications/CertificationTable.jsx:84-91 | the same column flips the order; another column starts descending |
| AssessmentInterface.CorrectCount | components/assessments/AssessmentInterface.jsx:76-91 | the number of correct answers never exceeds the number of questions |
| AssessmentInterface.Percentage | components/assessments/AssessmentInterface.jsx:97-104 | half-up rounding of 100·earned/total on the exact ratio, and 0 when the total is not positive |
| AssessmentInterface.CalculateScore | components/assessments/AssessmentInterface.jsx:73-106 | the loop computes the specification `ScoreOf`: a missing question list, and only that, returns 0; otherwise the counts, the points and the rounded percentage, with totalQuestions the list's length |
| AssessmentInterface.DefaultPointEach | components/assessments/AssessmentInterface.jsx:81 | questions with missing or zero points count one point each |
| AssessmentInterface.EarnedWithinTotal | components/assessments/AssessmentInterface.jsx:76-95 | with no negative point values the earned points lie between 0 and the total, which is at least the number of questions |
| AssessmentInterface.PercentageBounds | components/assessments/AssessmentInterface.jsx:97-104 | earned points within the total give a percentage in 0..100, and full marks give 100 |
| AssessmentInterface.RoundingExamples | components/assessments/AssessmentInterface.jsx:104 | 1 of 8 is shown as 13, 1 of 3 as 33 and 2 of 3 as 67 |
| AssessmentInterface.OnlyAutoGradedKindsEarn | components/assessments/AssessmentInterface.jsx:84-94 | short-answer, essay and any other kind of question never earn points |
| AssessmentInterface.UnansweredEarnNothing | components/assessments/AssessmentInterface.jsx:82-93 | unanswered questions earn nothing, provided no true/false key is itself undefined |
| AssessmentInterface.AnswerEncodings | components/assessments/AssessmentInterface.jsx:85-90 | a multiple-choice answer given as the option index's text earns its points; a true/false question with a boolean key earns only for that very boolean, never for its text |
| AssessmentInterface.PassRule | components/assessments/AssessmentInterface.jsx:110 | passed iff the percentage reaches `passing_score \|\| 70`; a passing score of 0 or none falls back to 70; the 0 returned for missing questions never passes |
| AssessmentInterface.TiePasses | components/assessments/AssessmentInterface.jsx:110 | a score exactly at the threshold passes, one point below fails |
| AssessmentInterface.Tick | components/assessments/AssessmentInterface.jsx:33-39 | a tick with at most one second left submits and sets 0; otherwise it takes one second off, leaving at least one |
| AssessmentInterface.CountdownSubmitsOnTime | components/assessments/AssessmentInterface.jsx:30-44 | with d seconds on the clock the attempt submits itself at the d-th second and not before |
| AssessmentInterface.SubmittedStays | components/assessments/AssessmentInterface.jsx:31 | once submitted, the timer no longer runs |
| AssessmentInterface.FormatTimeReadsBack | components/assessments/AssessmentInterface.jsx:141-145 | the text splits on ':' into the whole minutes and two digits, which read back to the seconds shown |
| AssessmentInterface.FormatTimeExamples | components/assessments/AssessmentInterface.jsx:141-145 | 605 seconds show as 10:05 and 59 as 0:59 |
| AssessmentInterface.GoToQuestion | components/assessments/AssessmentInterface.jsx:147-151 | the index changes exactly when the target is an existing question, so a valid index stays valid |
| AssessmentInterface.Attempt.constructor | components/assessments/AssessmentInterface.jsx:15-57 | the loaded attempt starts at question 0 with no answers and no result, and `duration·60` seconds when the duration is truthy, otherwise no timer |
| AssessmentInterface.Attempt.AnswerChange | components/assessments/AssessmentInterface.jsx:66-71 | the answer to one question is replaced, every other answer and the rest of the state kept |
| AssessmentInterface.Attempt.GoTo | components/assessments/AssessmentInterface.jsx:147-151 | the current index becomes GoToQuestion's answer and nothing else changes |
| AssessmentInterface.Attempt.Submit | components/assessments/AssessmentInterface.jsx:108-117 | the attempt is submitted with the score of the answers, whether it passed and whether the timer submitted it |
| AssessmentInterface.Attempt.Second | components/assessments/AssessmentInterface.jsx:30-44 | one second of the interval applies Tick, and a tick that submits records the automatic result |
| Validation.ValidateEmail | lib/validation.js:1-7 | true exactly for a string matching `^[^\s@]+@[^\s@]+\.[^\s@]+$`; every other value is rejected |
| Validation.EmailPatternMeaning | lib/validation.js:5-6 | the pattern holds iff the text has exactly one '@', no whitespace, a non-empty local part, and a '.' after the '@' with characters on both sides of it |
| Validation.EmailExamples | lib/validation.js:1-7 | `a@b.co` passes; `a@b.`, text with a space, the empty string and a number fail |
| Validation.ValidatePassword | lib/validation.js:9-14 | true exactly for a string of at least 8 UTF-16 code units, as `length` counts them |
| Validation.PasswordCountsCodeUnits | lib/validation.js:13 | four emoji, being eight code units, pass; seven ASCII letters fail |
| Validation.ValidateRequired | lib/validation.js:16-21 | invalid exactly for null, undefined and the empty string, with the message `<fieldName> is required` (default `Field`) |
| Validation.RequiredAcceptsBlankAndZero | lib/validation.js:17 | whitespace-only text and the number 0 count as present |
| Validation.ValidateEmployeeId | lib/validation.js:23-31 | a missing or non-string id gives 'Employee ID is required', fewer than 3 UTF-16 code units the length message, otherwise valid |
| Validation.IncludesMeaning | lib/validation.js:35 | `includes` on a list of strings is exact membership of a string value |
| Validation.ValidateEnrollmentType | lib/validation.js:33-39 | valid iff one of Mandatory, Optional, Self-Enrolled; otherwise 'Invalid enrollment type' |
| Validation.ValidateEnrollmentStatus | lib/validation.js:41-47 | valid iff one of the five statuses; otherwise 'Invalid enrollment status' |
| Validation.ValidateRegistrationStatus | lib/validation.js:49-55 | valid iff Pending, Approved or Rejected; otherwise 'Invalid registration status' |
| Validation.EnumsAreCaseSensitive | lib/validation.js:42-43 | 'pending' is rejected where 'Pending' is accepted |
| Validation.ValidateDateRange | lib/validation.js:57-70 | a falsy bound gives the 'required' message; otherwise invalid exactly when the start is later than the end |
| Validation.DateRangeEdges | lib/validation.js:65 | equal dates form a valid range, and an unparsable date never compares later |
| Validation.ValidatePercentage | lib/validation.js:72-78 | valid iff the parsed number exists and lies in 0..100 |
| Validation.ValidateScore | lib/validation.js:80-93 | NaN or negative gives the positive-number message, more than the parsed total the exceed message, otherwise valid (a NaN total accepts any score) |
| Validation.RemoveAngles | lib/validation.js:99 | the result is no longer than the input, holds no '<' or '>', and keeps every other character as often as the input has it |
| Validation.RemoveAnglesConcat | lib/validation.js:99 | the deletion works character by character: on a concatenation it is the concatenation of the two results, so the kept characters stay in order |
| Validation.SanitizeInput | lib/validation.js:95-100 | a non-string passes through unchanged; a string comes back as its trimmed text with every '<' and '>' deleted and every other character kept as often |
| Validation.RemoveAnglesNone | lib/validation.js:99 | text without angle brackets is left unchanged by the deletion |
| Validation.SanitizeWithoutAngles | lib/validation.js:99 | text without angle brackets is only trimmed |
| Validation.SanitizeNotIdempotent | lib/validation.js:99 | because trimming happens before the deletion, sanitizing `a <` twice gives a different result than sanitizing it once |
| EmployeesRoute.EmployeesQuery | app/api/employees/route.js:33-55 | the base, the supplied user, department and status filters in that order, then ORDER BY, with placeholders consecutive from $1 naming the parameters |
| EmployeesRoute.FiltersInOrder | app/api/employees/route.js:37-53 | the three filter blocks leave the base followed by the supplied filters, numbered from $1 |
| EmployeesRoute.FirstError | app/api/employees/route.js:93-106 | no error exactly when the id, the email and the name all pass; otherwise the message of the first failing check, in the order id, email, name |
| EmployeesRoute.OnlyThreeFieldsChecked | app/api/employees/route.js:93-106 | bodies that agree on id, email and name get the same verdict, whatever their other fields |
| EmployeesRoute.NewEmployee | app/api/employees/route.js:80-141 | the other fields are stored exactly as given, a falsy user_id as null, and a missing registration_status as 'Pending' |
| EmployeesRoute.UniqueIdsAppend | app/api/employees/route.js:109-119 | inserting an id the lookup did not find keeps employee ids unique |
| EmployeesRoute.Employees.constructor | app/api/employees/route.js:121 | an empty employees table |
| EmployeesRoute.Employees.Post | app/api/employees/route.js:72-154 | 401 without a session, 500 for an unreadable body, 400 with the first check's message, 409 for an existing employee_id, 500 when a query fails, all without writes; otherwise 201 with exactly the new row appended; employee ids stay unique |
| CalendarRoute.CalendarQuery | app/api/calendar/route.js:31-50 | the base, the date clause only for upcoming === 'true', the course filter, then the ascending order by scheduled date; placeholders name the parameters |
| CalendarRoute.CourseFilterFirst | app/api/calendar/route.js:40-48 | with or without the parameterless date clause, the course filter is numbered $1 |
| CalendarRoute.CourseIsAlwaysFirst | app/api/calendar/route.js:44-47 | a supplied course id is the first and only parameter |
| CalendarRoute.ScheduleError | app/api/calendar/route.js:77-89 | the required-fields message exactly when the course or a date is falsy, the order message exactly when all are present and the start is later than the end, and nothing otherwise |
| CalendarRoute.SameInstantAccepted | app/api/calendar/route.js:84 | a session starting and ending at the same instant is accepted |
| CalendarRoute.UnreadableDatesAccepted | app/api/calendar/route.js:84 | an unparsable date compares false either way, so the order check lets it through |
| CalendarRoute.NewSession | app/api/calendar/route.js:75-98 | the stored row carries the body's fields, with the status 'Scheduled' only when it is missing |
| CalendarRoute.Calendar.constructor | app/api/calendar/route.js:91 | an empty calendar table |
| CalendarRoute.Calendar.Post | app/api/calendar/route.js:67-111 | 401 without a session, 500 for an unreadable body, 400 with the schedule error, 500 for a failed insert, all without writes; otherwise 201 with exactly the new session appended |
| RegisterRoute.CheckBody | app/api/auth/register/route.js:39-69 | the checks run in the order email, password, name, role and the first failure gives its 400 message; a truthy non-string name throws; accepted exactly when all pass, with the role defaulting to 'employee' and required to be one of admin, manager, employee |
| RegisterRoute.RoleDefaultsToEmployee | app/api/auth/register/route.js:39 | a missing role registers an employee |
| RegisterRoute.RoleIsCaseSensitive | app/api/auth/register/route.js:63-64 | 'Admin' is refused where 'admin' passes |
| RegisterRoute.ErrorReply | app/api/auth/register/route.js:83-96 | a message containing 'duplicate key' gives 409 'Email already registered'; every other error gives 500 |
| RegisterRoute.ErrorMapping | app/api/auth/register/route.js:86-96 | the unique-violation message maps to 409 and the hashing failure to 500 |
| RegisterRoute.Info | lib/auth.js:32 | the returned user is the stored row without its password hash |
| RegisterRoute.Users.constructor | lib/auth.js:30 | an empty users table |
| RegisterRoute.Users.Register | app/api/auth/register/route.js:36-98 | an unreadable body, a rejected body and a name that throws write nothing; a hashing or insert failure is mapped by the catch block with no row; otherwise exactly the new user is appended, and 201 with the token is returned only for that stored row (a signing failure answers 500 with the row kept) |
| AssessmentForm.NewForm | components/assessments/AssessmentForm.jsx:15-24 | an empty form for the page's course (or none), a quiz of 30 minutes with pass mark 70, a draft with no questions |
| AssessmentForm.EditForm | components/assessments/AssessmentForm.jsx:29-42 | editing copies every field, replacing each falsy one by its default; the course falls back to the page's course |
| AssessmentForm.ZeroPassingScoreBecomesDefault | components/assessments/AssessmentForm.jsx:36-37 | a stored pass mark of 0 becomes 70 and a missing duration 30 |
| AssessmentForm.NewQuestion | components/assessments/AssessmentForm.jsx:65-73 | the template is a multiple-choice question worth 1 point with four empty options, correct answer 0, and an id made of the clock |
| AssessmentForm.AddQuestion | components/assessments/AssessmentForm.jsx:64-78 | one question is appended and the earlier ones are kept |
| AssessmentForm.UpdateQuestion | components/assessments/AssessmentForm.jsx:80-87 | the length is kept and only the question at the index gets the new field value |
| AssessmentForm.SetFieldChangesOneField | components/assessments/AssessmentForm.jsx:84 | changing the text of a question leaves its other fields unchanged |
| AssessmentForm.UpdateOutOfRange | components/assessments/AssessmentForm.jsx:83-85 | an index outside the list changes nothing |
| AssessmentForm.ReplaceOption | components/assessments/AssessmentForm.jsx:94-96 | a copy of the question with exactly one option replaced |
| AssessmentForm.UpdateQuestionOption | components/assessments/AssessmentForm.jsx:89-101 | the length is kept, every other question is unchanged, and the chosen question differs only in the chosen option |
| AssessmentForm.FilterOutMissing | components/assessments/AssessmentForm.jsx:106 | the filter keeps every question when the index is not one of its positions |
| AssessmentForm.FilterOutAt | components/assessments/AssessmentForm.jsx:106 | the filter drops exactly the question at the index |
| AssessmentForm.DeleteQuestionRemovesOne | components/assessments/AssessmentForm.jsx:103-108 | an index in range removes exactly that question, keeping the others in order; an index out of range changes nothing |
| AssessmentForm.DeleteUndoesAdd | components/assessments/AssessmentForm.jsx:64-108 | deleting the question just added gives the list back |
| AssessmentForm.SubmitError | components/assessments/AssessmentForm.jsx:114-137 | the checks run in the order title, course, at least one question, complete questions; each message appears exactly when the earlier checks pass and its own fails, and onSubmit runs exactly when all pass |
| AssessmentForm.FreshQuestionIncomplete | components/assessments/AssessmentForm.jsx:65-132 | a question added from the template cannot be submitted until it is filled in |
| AssessmentForm.OptionsCheckedForMultipleChoiceOnly | components/assessments/AssessmentForm.jsx:130-131 | only multiple-choice questions need their options filled in |
| EmployeeForm.InitialForm | components/employees/EmployeeForm.jsx:14-24 | every field starts from the employee's value, or '' when it is falsy; employment type and registration status default to 'Full-Time' and 'Pending' |
| EmployeeForm.FieldErrorMeaning | components/employees/EmployeeForm.jsx:29-82 | id, department and designation are refused exactly when blank; a non-blank name exactly when shorter than 2 UTF-16 code units; a non-blank email exactly when it fails the pattern; a contact number exactly when present and not made of digits, spaces and -+(); the joining date when missing or later than now; type and status when empty |
| EmployeeForm.RecordBlock | components/employees/EmployeeForm.jsx:29-82 | one `if … newErrors[field] = message` block adds exactly the next field's message, if it has one |
| EmployeeForm.ValidateForm | components/employees/EmployeeForm.jsx:26-86 | the error map holds exactly the fields whose check fails, each with its message, and the result is true iff the map is empty |
| EmployeeForm.AllFieldsListed | components/employees/EmployeeForm.jsx:29-82 | validateForm checks every field of the form |
| EmployeeForm.NameLengthUntrimmed | components/employees/EmployeeForm.jsx:37 | the length check counts untrimmed characters: ' a' is long enough |
| EmployeeForm.ContactNumberOptional | components/employees/EmployeeForm.jsx:48-51 | an empty number passes, a formatted one passes, and one with letters fails |
| EmployeeForm.InputChange | components/employees/EmployeeForm.jsx:179-185 | only the field typed into changes, only its error is cleared, and every other error is kept |
| SessionForm.InitialForm | components/calendar/SessionForm.jsx:13-50 | with a session, each of the eleven fields is the session's value with its default (type 'online', status 'scheduled', the others empty; attendees only when truthy); without one it is the blank form, with the start set to 09:00 of the picked day when a day is picked |
| SessionForm.PrefillShape | components/calendar/SessionForm.jsx:47 | the prefilled start is the day as yyyy-MM-dd, a 'T', and 09:00 |
| SessionForm.SubmitError | components/calendar/SessionForm.jsx:87-100 | the checks run in the order title, start, end after start; each message appears exactly when the earlier checks pass and its own fails, and onSubmit runs exactly when all pass |
| SessionForm.EmptyEndPasses | components/calendar/SessionForm.jsx:97 | without an end time only the title and the start are checked |
| SessionForm.EndStrictlyAfterStart | components/calendar/SessionForm.jsx:97 | an end at the start instant is refused and one a millisecond later accepted |
| SessionForm.TypeDependentFields | components/calendar/SessionForm.jsx:237-260 | a hybrid session shows both the location and the meeting URL; in_person, online and hybrid show at least one; the default online session shows only the URL |
| DataTable.KeepMatchingMeaning | components/ui/DataTable.tsx:50-57 | the search keeps exactly the rows some column of which contains the term, ignoring case, and keeps the whole list when every row matches |
| DataTable.KeepMatchingCounts | components/ui/DataTable.tsx:50-57 | a matching row is kept as many times as it occurs and a non-matching one not at all |
| DataTable.KeepMatchingConcat | components/ui/DataTable.tsx:50-57 | the search is a row-by-row filter: on a concatenation it is the concatenation of the two results, so the kept rows stay in order |
| DataTable.FilterMeaning | components/ui/DataTable.tsx:50-57 | with searching off or an empty term the data is shown as it is; otherwise exactly the matching rows are, each as many times as in the data |
| DataTable.Compare | components/ui/DataTable.tsx:60-70 | the sort callback answers 0 exactly for strictly equal values, and otherwise -1 just when the first value is smaller in ascending order or larger in descending order |
| DataTable.SortRowsPermutes | components/ui/DataTable.tsx:60-70 | sorting keeps the same rows, each as many times as before |
| DataTable.ComparisonConsistent | components/ui/DataTable.tsx:60-70 | on a column of only numbers or only strings the callback is a total preorder, so the sort is well defined |
| DataTable.SortedByColumn | components/ui/DataTable.tsx:60-70 | after sorting on a uniform column, each pair of rows is in the chosen direction's order |
| DataTable.SortKeepsTiesInOrder | components/ui/DataTable.tsx:60-70 | rows whose sort values are strictly equal keep their original relative order |
| DataTable.TotalPages | components/ui/DataTable.tsx:73 | the page count is 0 only for no rows, and otherwise the least count of pages of pageSize that holds every row |
| DataTable.Slice | components/ui/DataTable.tsx:75-76 | the slice is never longer than its bounds allow and is the exact subsequence when they lie within the list |
| DataTable.PageRows | components/ui/DataTable.tsx:74-76 | a page never holds more than pageSize rows |
| DataTable.EveryRowOnItsPage | components/ui/DataTable.tsx:73-76 | every row appears on exactly the page its index gives, at its offset there, and that page exists |
| DataTable.Clamp | components/ui/DataTable.tsx:87-89 | the clamped page is at least 1, at most the page count when there are pages, the requested page when it exists, and the nearest end otherwise |
| DataTable.RangeCountsPage | components/ui/DataTable.tsx:155-158 | on an existing page the pager's "Showing a to b of n" range is non-empty and counts that page's rows |
| DataTable.Table.constructor | components/ui/DataTable.tsx:37-47 | the table starts with no search, on page 1, with no sort key and ascending order |
| DataTable.Table.Shown | components/ui/DataTable.tsx:73-76 | the rows shown never number more than pageSize |
| DataTable.Table.SetSearchTerm | components/ui/DataTable.tsx:100-103 | typing replaces the term and goes back to page 1, leaving the sort unchanged |
| DataTable.Table.HandleSort | components/ui/DataTable.tsx:78-85 | the same key flips the order, another key sorts on it ascending; the search and the page are unchanged |
| DataTable.Table.ClickHeader | components/ui/DataTable.tsx:118 | a header click sorts as handleSort does only for a sortable column and changes nothing otherwise |
| DataTable.Table.GoToPage | components/ui/DataTable.tsx:87-89 | the page becomes the requested one clamped to the pages there are, leaving the search and the sort unchanged |
| CourseAnalytics.CategoriesMeaning | components/reports/CourseAnalytics.jsx:19 | the category filter offers each non-empty category of some course exactly once, and nothing else |
| CourseAnalytics.FilteredMeaning | components/reports/CourseAnalytics.jsx:21-30 | a course is listed exactly when it matches both the search and the category; no search with 'all' lists every course |
| CourseAnalytics.SummaryOf | components/reports/CourseAnalytics.jsx:73-80 | the cards show the listed course count, enrollment and completion sums, and averages of the completion rate and the score (0 for no courses) |
| CourseAnalytics.SummaryIgnoresOrder | components/reports/CourseAnalytics.jsx:31-39 | the cards show the same figures whichever order the sort leaves the filtered courses in |
| CourseAnalytics.HandleSortCourses | components/reports/CourseAnalytics.jsx:41-48 | the chosen column becomes the sort column; the same column flips the direction, another starts descending |
| CourseAnalytics.CsvRow | components/reports/CourseAnalytics.jsx:52-60 | each export row has one cell per header column |
| CourseAnalytics.ExportRows | components/reports/CourseAnalytics.jsx:50-62 | the export is the header followed by one row per listed course, in list order |
| CourseAnalytics.ExportLines | components/reports/CourseAnalytics.jsx:50-62 | when no title or category holds a separator, the text splits back into the header line and one line per course, each giving back its cells |
| EmployeeReport.DepartmentsMeaning | components/reports/EmployeeReport.jsx:19 | the department filter offers each non-empty department of some employee exactly once, and nothing else |
| EmployeeReport.FilteredMeaning | components/reports/EmployeeReport.jsx:21-31 | an employee is listed exactly when they match both the search (name, email or id) and the department; no search with 'all' lists everyone |
| EmployeeReport.SummaryOf | components/reports/EmployeeReport.jsx:80-85 | the cards show the sums of enrolled courses, completed courses and certificates over the listed employees, and the average score (0 for nobody) |
| EmployeeReport.SummaryIgnoresOrder | components/reports/EmployeeReport.jsx:32-45 | the cards show the same figures whichever order the sort leaves the filtered employees in |
| EmployeeReport.CompletionRate | components/reports/EmployeeReport.jsx:203-205 | the rate is 0 without enrolled courses, and otherwise completed over enrolled times 100 |
| EmployeeReport.CompletionRateBounds | components/reports/EmployeeReport.jsx:203-205 | completing no more courses than enrolled keeps the rate within 0..100, and it is 100 when all are completed |
| EmployeeReport.HandleSortEmployees | components/reports/EmployeeReport.jsx:47-54 | the chosen column becomes the sort column; the same column flips the direction, another starts ascending |
| EmployeeReport.CsvRow | components/reports/EmployeeReport.jsx:58-67 | each export row has one cell per header column |
| EmployeeReport.ExportRows | components/reports/EmployeeReport.jsx:56-69 | the export is the header followed by one row per listed employee, in list order |
| EmployeeReport.ExportLines | components/reports/EmployeeReport.jsx:56-69 | when no text cell holds a separator, the text splits back into the 8-column header line and one 8-cell line per employee |
| AssessmentTable.Lookup | components/assessments/AssessmentTable.jsx:156-157 | a known key gets its own table entry, and a missing or unknown one gets the fallback's entry |
| AssessmentTable.ConfigFallbacks | components/assessments/AssessmentTable.jsx:12-24 | every row gets one of the listed badges; an unknown type shows as a quiz and an unknown status as a draft |
| AssessmentTable.FilteredMeaning | components/assessments/AssessmentTable.jsx:33-43 | a row is listed exactly when the search, the type filter and the status filter all pass; no search with 'all' twice lists every row |
| AssessmentTable.HandleSortAssessments | components/assessments/AssessmentTable.jsx:59-66 | the chosen column becomes the sort column; the same column flips the direction, another starts descending |
| AssessmentTable.QuestionCount | components/assessments/AssessmentTable.jsx:185 | a truthy total_questions is shown as it is, else a non-zero questions length, else 0 |
| AssessmentTable.PassMark | components/assessments/AssessmentTable.jsx:188 | a non-zero passing score is shown; a missing or zero one shows as 70 |
| Utils.FormatDuration | lib/utils.js:45-55 | a falsy value gives '0h' and unparsable text 'NaNh'; otherwise the parsed hours are written as minutes, hours, or days with the remainder only when it is non-zero |
| Utils.DurationRoundTrip | lib/utils.js:45-55 | reading the formatted text back (m = hours·60, h = hours, d = 24 hours) gives the hour count parseInt read: nothing is lost in the days-and-hours split |
| Utils.WholeHoursRoundTrip | lib/utils.js:47-54 | for every whole hour count, each of the four branches' texts reads back to that count |
| Utils.DaysAndHours | lib/utils.js:52 | the text `⌊h/24⌋d (h mod 24)h` reads back to days·24 + remainder |
| Utils.SinglePiece | lib/utils.js:48-54 | a single `<n>m`, `<n>h` or `<n>d` piece reads back to its hours |
| Utils.DurationEdgeExamples | lib/utils.js:46-47 | 0 and '' give '0h'; 'abc' gives 'NaNh' |
| Utils.DurationDaysExample | lib/utils.js:49-52 | 48 hours are shown as '2d', without a zero-hour suffix |
| Utils.DurationHexExample | lib/utils.js:47-52 | parseInt reads '0x30' as hexadecimal, 48 hours, shown as '2d' |
| Utils.GetStatusColor | lib/utils.js:57-77 | a listed status gets its class and anything else the gray default; the result is always one of the five classes |
| Utils.StatusColorExamples | lib/utils.js:62-76 | 'Completed' is blue; 'completed' and undefined fall back to gray |
| Utils.GetProgressColor | lib/utils.js:79-85 | green iff the percentage (NaN read as 0) is at least 80, blue iff 50 to below 80, yellow iff 25 to below 50, red below 25 |
| Utils.ProgressColorMonotone | lib/utils.js:81-84 | a larger percentage never gets a lower colour band |
| Utils.CalculateDaysRemaining | lib/utils.js:87-98 | null exactly when the date is falsy, NaN exactly for an unparsable date, otherwise the whole days left rounded up |
| Utils.ToBase36 | lib/utils.js:101 | the clock value written in base 36 is non-empty and uses only base-36 digits |
| Utils.Base36RoundTrip | lib/utils.js:101 | the base-36 text reads back to the millisecond clock value |
| Utils.Substring | lib/utils.js:102 | `substring(start, end)` gives at most end − start characters, exactly `s[start..end]` when the text is long enough |
| Utils.GenerateId | lib/utils.js:100-104 | with a truthy prefix the id is prefix-timestamp-random, otherwise timestamp-random, where random is characters 2..7 of the random text |
| Utils.GenerateIdParts | lib/utils.js:103 | for a dash-free prefix and random text, splitting on '-' gives back the prefix, the timestamp (which reads back to the clock) and at most 5 random characters |
| Utils.TruncateText | lib/utils.js:106-109 | a missing, empty or short enough text is returned unchanged; a longer one becomes its first maxLength characters plus '...', of length maxLength + 3 |
| Utils.GetInitials | lib/utils.js:111-116 | a falsy name gives 'U', a non-string one a TypeError, a string one the initials of its trimmed text |
| Utils.InitialsMeaning | lib/utils.js:113-115 | a non-empty name throws exactly when it is blank; otherwise the result is its upper-cased first character, followed by the upper-cased first character of its last word when it has several |
| Utils.InitialsOfTrimmed | lib/utils.js:113-115 | for a trimmed name the initials fail only for the empty text, and otherwise satisfy the one-or-two-character rule |
| Utils.CsvCell | lib/utils.js:150-155 | null and undefined give an empty cell; a string holding a comma is wrapped in quotes; any other string is kept as is |
| Utils.CsvLines | lib/utils.js:145-158 | the export is one header line plus one line per row |
| Utils.CsvText | lib/utils.js:142-158 | nothing is exported for empty data |
| Utils.CsvTextLines | lib/utils.js:145-158 | when no text holds a line break, splitting the export on line breaks gives the header line of the first row's keys and one line per row |
| Utils.CsvQuotesNotEscaped | lib/utils.js:152-154 | a quote inside a quoted cell is not escaped |
| Jwt.GetTokenFromRequest | lib/jwt.js:31-48 | a header starting with exactly 'Bearer ' yields the text after its 7 characters; otherwise the 'token' cookie's value, otherwise null |
| Jwt.GetUserFromRequest | lib/jwt.js:50-63 | a missing or empty token gives null without calling the verifier; any other token gives the verifier's answer (null on failure) |
| Jwt.HeaderTakesPrecedence | lib/jwt.js:33-36 | with a bearer header the cookie is ignored and the token is the header minus its prefix |
| Jwt.OtherSchemeFallsBack | lib/jwt.js:34-41 | 'Basic …', a lower-case 'bearer ' and a bare 'Bearer' fall back to the cookie |
| Jwt.NoCredentials | lib/jwt.js:43-55 | with neither header nor cookie both the token and the user are null |
| Jwt.EmptyBearerNotVerified | lib/jwt.js:35-55 | 'Bearer ' with nothing after it gives the empty token, which is never verified |
| Sidebar.IsActiveMeaning | components/layout/Sidebar.jsx:70 | an entry is active for its own path and every path below it, and for no other |
| Sidebar.ActiveExamples | components/layout/Sidebar.jsx:70 | sharing a prefix is not enough: the character after it must be a slash |
| Sidebar.ActiveNest | components/layout/Sidebar.jsx:70 | two entries active for the same path lie on one branch |
| Sidebar.OneSegmentsDoNotNest | components/layout/Sidebar.jsx:70 | a one-segment path lies below no other one-segment path |
| Sidebar.NavigationOneSegment | components/layout/Sidebar.jsx:25-38 | every navigation entry is one segment deep |
| Sidebar.NavigationDistinct | components/layout/Sidebar.jsx:25-38 | no two navigation entries share a path |
| Sidebar.AtMostOneActive | components/layout/Sidebar.jsx:25-70 | at most one sidebar entry is highlighted, whatever the path |
| ProgressTimeline.GroupActivitiesByDate | components/progress/ProgressTimeline.jsx:43-58 | the loop's result is the timeline function's when every timestamp can be dated, and an error when one cannot |
| ProgressTimeline.KeysCoverGroups | components/progress/ProgressTimeline.jsx:46-55 | the grouping object's key order lists exactly its keys, none twice |
| ProgressTimeline.GroupsMeaning | components/progress/ProgressTimeline.jsx:46-55 | a day has a group exactly when some activity falls on it, and that group holds that day's activities in input order |
| ProgressTimeline.OnDayMembers | components/progress/ProgressTimeline.jsx:47-53 | an activity is filed under a day exactly when it is one of the activities and is dated that day |
| ProgressTimeline.EntriesCount | components/progress/ProgressTimeline.jsx:46-57 | the groups taken in key order account for every activity exactly once |
| ProgressTimeline.KeysAreDays | components/progress/ProgressTimeline.jsx:46-55 | the object's keys are exactly the days on which some activity falls |
| ProgressTimeline.EntriesMeaning | components/progress/ProgressTimeline.jsx:46-57 | before sorting, the entries are one per day, each holding that day's activities, with every activity counted once |
| ProgressTimeline.SortedEntries | components/progress/ProgressTimeline.jsx:57 | sorting keeps the entries and puts the days strictly newest first |
| ProgressTimeline.SameGroups | components/progress/ProgressTimeline.jsx:57 | reordering the groups keeps each day's activities and the set of days |
| ProgressTimeline.TimelineMeaning | components/progress/ProgressTimeline.jsx:43-62 | the timeline is newest day first, one group per day with some activity, each holding exactly that day's activities in input order, every activity once, and empty exactly when there are no activities |
| ProgressTimeline.Badge | components/progress/ProgressTimeline.jsx:24-41 | a known type gets its own badge; an unknown one is labelled with its own name in grey |
| ProgressTimeline.BadgeFallback | components/progress/ProgressTimeline.jsx:34 | a badge shows the raw type name exactly when the type is unknown |
| ProgressTimeline.ActivityIcon | components/progress/ProgressTimeline.jsx:9-22 | four activity types have their own icons, and every other type gets the clock |
| ProgressTimeline.ScoreColor | components/progress/ProgressTimeline.jsx:126-131 | a score line is shown only for an activity with a score, green from 70 and red below |
| EnrollmentCard.StatusConfig | components/enrollments/EnrollmentCard.jsx:42 | a known status gets its own entry, and a missing or unknown one gets the 'enrolled' entry |
| EnrollmentCard.Progress | components/enrollments/EnrollmentCard.jsx:45 | the progress shown is the enrollment's non-zero progress, and 0 when it is missing |
| EnrollmentCard.Heading | components/enrollments/EnrollmentCard.jsx:79-83 | the title and the subtitle are the course and employee names, with placeholders when these are missing or empty |
| EnrollmentCard.StatusFallback | components/enrollments/EnrollmentCard.jsx:11-45 | the badge is always a STATUS_CONFIG entry; a missing or unlisted status reads 'Enrolled' |
| EnrollmentCard.DaysRemaining | components/enrollments/EnrollmentCard.jsx:63-69 | no expiry gives null, an unreadable one NaN, and otherwise the days left rounded up |
| EnrollmentCard.RedMissesDayZero | components/enrollments/EnrollmentCard.jsx:133 | the red test as written misses an expiry 0 days away and agrees with the intended test on every other value |
| EnrollmentCard.Expiry | components/enrollments/EnrollmentCard.jsx:127-137 | the intended rule (see RedMissesDayZero): the line is there exactly while the enrollment has an expiry and is not completed; it counts days only when they are not negative, and is red when fewer than 7 days remain, 0 included |
| EnrollmentCard.ExpiryExamples | components/enrollments/EnrollmentCard.jsx:127-137 | under the intended rule (see RedMissesDayZero), an expiry today or tomorrow is red, at a week it is not, a past one shows its date in red, and an unreadable one shows its date |
| EnrollmentCard.ActionsOffered | components/enrollments/EnrollmentCard.jsx:170-202 | in progress offers only the move to completed, enrolled only the move to in progress, other statuses none; Remove is offered unless the enrollment is completed, and View Details only with its callback |
| EnrollmentCard.UnknownStatusOffersNoChange | components/enrollments/EnrollmentCard.jsx:42-189 | a status shown as 'Enrolled' through the fallback offers no status change |
| EnrollmentCard.Card.constructor | components/enrollments/EnrollmentCard.jsx:39-40 | the card starts with no update in flight |
| EnrollmentCard.Card.BeginStatusUpdate | components/enrollments/EnrollmentCard.jsx:50-54 | without a callback nothing happens; otherwise the flag goes up and one call is made with the enrollment's id and the new status |
| EnrollmentCard.Card.FinishStatusUpdate | components/enrollments/EnrollmentCard.jsx:55-60 | once the call settles, a failure is logged and the flag drops either way |
| EnrollmentCard.Card.HandleStatusUpdate | components/enrollments/EnrollmentCard.jsx:50-61 | the whole handler makes exactly one call when there is a callback, and leaves no update in flight |
| EnrollmentCard.Card.Press | components/enrollments/EnrollmentCard.jsx:170-189 | pressing an enabled status button asks for that button's status |
| SortToggle.HandleSort | components/ui/DataTable.tsx:78-85 | a click makes the clicked column the sort column; the same column flips the direction, another starts in the table's initial direction |
| SortToggle.HandleSortProperties | components/ui/DataTable.tsx:78-85 | two clicks on one column restore its direction, and clicking away and back starts afresh |
| Sorting.SortPermutes | lib/ai-recommendations.js:102 | sorting only reorders: the result holds the same elements, each as many times |
| Sorting.SortSorted | lib/ai-recommendations.js:102 | under a total, transitive comparator the result is ordered |
| Sorting.SortStable | components/ui/DataTable.tsx:60-70 | elements that compare equal keep their relative order, as Array.prototype.sort guarantees |
| Sorting.SortMembers | lib/ai-recommendations.js:102 | an element is in the sorted list exactly when it is in the input |
| Sorting.SortDistinct | components/progress/ProgressTimeline.jsx:57 | sorting a list without repeated keys keeps it free of repeated keys |
| Reports.DistinctPresentMeaning | components/reports/CourseAnalytics.jsx:19 | the filter choices are exactly the non-empty values that occur, none twice |
| Reports.SumByPermutation | components/reports/CourseAnalytics.jsx:73-80 | a sum over the rows does not depend on their order |
| Reports.Average | components/reports/CourseAnalytics.jsx:78-80 | the average times the count is the sum, and it is 0 for no rows |
| Reports.CsvReadsBack | components/reports/CourseAnalytics.jsx:50-62 | CSV text built from cells free of separators splits back into its lines and cells |
| Time.CeilDiv | components/certifications/CertificationTable.jsx:97 | the quotient rounded up is the least whole number whose multiple reaches the dividend |
| Time.DaysUntil | components/certifications/CertificationTable.jsx:97 | the whole days until an instant, rounded up: the least count of days that reaches it |
| Time.AddYears | app/api/certifications/route.js:91 | setFullYear keeps a valid date valid and moves it by the number of years |
| Time.AddYearsKeepsMonthDay | app/api/certifications/route.js:91 | every date but 29 February keeps its month and day, and 29 February does too when the target year is a leap year |
| Time.LeapDayRollsOver | app/api/certifications/route.js:91 | 29 February moved into a common year lands on 1 March |
| Js.OrStr | components/assessments/AssessmentForm.jsx:29-42 | `x \|\| d` on a text field keeps a non-empty text and gives the default for a missing or empty one |
| Js.OrInt | components/enrollments/EnrollmentCard.jsx:45 | `x \|\| d` on a number field keeps a non-zero number and gives the default for a missing or zero one |
| Js.TextToIntegerOfNat | app/api/certifications/route.js:91 | Number() of a natural number's decimal text gives the number back |
| Strings.Utf16Length | lib/validation.js:13 | `length` counts one or two UTF-16 code units per character, exactly one each when every character lies in the Basic Multilingual Plane |
| Strings.ParseNatRoundTrip | lib/utils.js:47 | parseInt reads a natural number's decimal text back, whatever non-digit follows, except an 'x' after a lone 0 |
| Strings.ParseIntHexExamples | app/api/enrollments/route.js:71 | parseInt without a radix reads '0x10' as hexadecimal 16 |
| Strings.ParseIntNegativeHexExample | app/api/enrollments/route.js:71 | the hexadecimal prefix may follow a sign: '-0x10' is -16 |
| Strings.ParseIntUpperHexExample | app/api/enrollments/route.js:71 | the prefix and the digits may be upper case: '0X1f' is 31 |
| Strings.ParseIntHexStopsExample | app/api/enrollments/route.js:71 | the digits stop at the first non-hexadecimal character: '0x1g' is 1 |
| Strings.ParseIntHexEmptyExamples | app/api/enrollments/route.js:71 | a prefix with no hexadecimal digit after it is NaN: '0x' and '0xg' |

## Left out

- The database itself is not modelled: the pg pool in lib/db.js, connection timeouts, and what the SQL means (popularity counts, ILIKE, the 30-day trending window, the report aggregates). Query results are inputs, and tables are in-memory sequences.
- SQL text is kept as appended pieces. Fixed SELECT heads are abbreviated constants ("SELECT e.*, … FROM enrollments e … WHERE 1=1"), because only the placeholder numbering and the clause order carry logic.
- lib/auth.js hashing and comparison (bcrypt), and signing and verifying tokens with `jose` (signToken, verifyToken), are foreign code. Their results are parameters: `verify` in `Jwt`, the hash and the signed token in `RegisterRoute`.
- The login, me, notifications, courses, programs, assessments and overview-report routes are not part of this model: they only pass requests to the database.
- The assessment-attempt submission handler, which records attempts, completes enrollments and issues certificates, is not part of this model.
- The clock, `Math.random`, `gen_random_uuid()` and `new Date(text)` are inputs. A date argument carries the instant it denotes, or Invalid Date.
- Time zones are left out: `toISOString` in UTC against `setFullYear` in local time. The JavaScript Date range limit is left out too.
- Locale and date-fns formatting is left out: formatDate, formatDateTime, and `format` throwing on an invalid date in EnrollmentCard. In ProgressTimeline, `dayOf` stands for parseISO plus format, and the HH:mm time and the duration line are left out.
- formatPercentage, cn, debounce and downloadFile (Blob and DOM work) are left out: they are floating-point, styling or browser code.
- calculateEstimatedCompletion and `estimated_completion` are left out: that step is floating-point date arithmetic, and the learning path does not carry the field.
- Floating point is replaced. Counts, points, scores and millisecond timestamps are integers. Averages and rates are exact `real` values. The grading percentage is rounded half up from the exact ratio, so float rounding cases are not captured.
- The sort order of CourseAnalytics, EmployeeReport, CertificationTable and AssessmentTable is not specified: their comparators never answer 0, so the order depends on the engine. What these screens show besides the order is proved not to depend on it (`CourseAnalytics.SummaryIgnoresOrder`, `EmployeeReport.SummaryIgnoresOrder`).
- DataTable: comparing two values of different types with `<` is taken as false. A pageSize of 0 is excluded, because `Math.ceil(n / 0)` is Infinity.
- Config lookups (`STATUS_CONFIG[status]`) see only the listed keys. Inherited property names such as "constructor" are not modelled, and neither are the STATUS icons.
- Async behaviour and concurrency are left out: fire-and-forget notification delivery, the `setInterval` timer (only the tick is modelled), the submit request and `onComplete` in AssessmentInterface, and concurrent requests racing past the duplicate checks.
- EnrollmentCard: the metric rows, the View and Delete callbacks' effects, and the rendered dates are left out.
- Sidebar: the collapse toggle and the CSS classes are left out.
- Rendering is left out: JSX, toast, localStorage, fetch, clipboard, and the display-only components (page and layout files, DashboardLayout, AppBar, CalendarView, CertificateViewer, RecommendationWidget, AnalyticsCharts, NotificationBadge, RoleSelector, the card and column-config tables, ProgressBar, ProgressTracker, OverviewDashboard).
- Strings are sequences of Unicode code points, and case mapping covers ASCII letters only. `toLowerCase` and `toUpperCase` on other letters (É, ß, Σ) are not modelled. The lines below name the members this affects.
- CertificationTable.ListedMeaning: the search ignores case for ASCII letters only, so "ÉCOLE" does not match "école" here as it does in the source.
- CourseAnalytics.FilteredMeaning: the search ignores case for ASCII letters only.
- EmployeeReport.FilteredMeaning: the search ignores case for ASCII letters only.
- AssessmentTable.FilteredMeaning: the search ignores case for ASCII letters only.
- DataTable.KeepMatchingMeaning: the search ignores case for ASCII letters only; the same holds for DataTable.FilterMeaning and DataTable.KeepMatchingCounts.
- DataTable.Compare: two strings are compared by code point. JavaScript's `<` compares UTF-16 code units, which orders characters beyond U+FFFF differently from those in U+E000 to U+FFFF; that case is not modelled.
- Utils.GetInitials: an initial is upper-cased for ASCII letters only, so "émile zola" gives "éZ" here and "ÉZ" in the source. The initial is the first code point, where `[0]` takes the first UTF-16 code unit, half of a character beyond U+FFFF.
- Utils.TruncateText: the length and the cut count code points, where `length` and `substring` count UTF-16 code units. A cut inside a surrogate pair cannot be represented in a string of code points.
- CertificationsRoute.ExpiryYear: Number() of the year text with a string suffix is modelled for whole decimal numbers only. A fractional or exponent suffix such as "1.5" or "e1" gives Invalid Date here, where setFullYear would take the integer part of the number.
- AssessmentForm.UpdateQuestionOption: it requires the option index to lie within the question's options. The source's assignment past the end, which leaves holes in the array, is not modelled.
- AssessmentInterface.Attempt.GoTo: it requires the questions to be loaded. When they are missing, the source reads `assessment.questions.length` and throws.

## Findings

| source | as written | input that shows it | evidently intended | confidence | as-written member | corrected member |
|---|---|---|---|---|---|---|
| components/enrollments/EnrollmentCard.jsx:133 | the expiry text is red when `daysRemaining && daysRemaining < 7` | an expiry whose rounded-up day count is 0, such as one due at this very instant, shows "0 days left" without red, because 0 is falsy | red whenever fewer than 7 days are left, 0 included | medium, not executed | EnrollmentCard.RedMissesDayZero | EnrollmentCard.Expiry |

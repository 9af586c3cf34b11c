/**
 * The assessments list (components/assessments/AssessmentTable.jsx).
 *
 * The listed assessments match the search (in the title or the course
 * title), the type filter and the status filter together. Each row looks its
 * type and status up in two fixed tables, falling back to the quiz and the
 * draft entries, and shows the question count and the pass mark through
 * `||` fallbacks. The sort's comparator never answers 0 and is left out.
 */
module AssessmentTable {
  import opened Wrappers
  import opened Strings
  import opened Js
  import opened SortToggle

  /** A badge: its label and its colour classes. */
  datatype Config = Config(caption: string, color: string)

  /** ASSESSMENT_TYPES. */
  const TypeConfigs: map<string, Config> := map[
    "quiz" := Config("Quiz", "bg-blue-100 text-blue-800"),
    "exam" := Config("Exam", "bg-purple-100 text-purple-800"),
    "assignment" := Config("Assignment", "bg-green-100 text-green-800"),
    "practical" := Config("Practical", "bg-orange-100 text-orange-800")]

  /** STATUS_CONFIG (the icon is left out). */
  const StatusConfigs: map<string, Config> := map[
    "draft" := Config("Draft", "bg-gray-100 text-gray-800"),
    "active" := Config("Active", "bg-green-100 text-green-800"),
    "scheduled" := Config("Scheduled", "bg-blue-100 text-blue-800"),
    "archived" := Config("Archived", "bg-gray-100 text-gray-600")]

  /** `table[key] || table[fallback]`. */
  function Lookup(table: map<string, Config>, key: Option<string>, fallback: string): (c: Config)
    requires fallback in table
    ensures key.Some? && key.value in table ==> c == table[key.value]
    ensures !(key.Some? && key.value in table) ==> c == table[fallback]
  {
    if key.Some? && key.value in table then table[key.value] else table[fallback]
  }

  function TypeConfig(kind: Option<string>): Config {
    Lookup(TypeConfigs, kind, "quiz")
  }

  function StatusConfig(status: Option<string>): Config {
    Lookup(StatusConfigs, status, "draft")
  }

  /** Every row gets one of the listed badges; an unknown type shows as a quiz, an unknown status as a draft. */
  lemma ConfigFallbacks(kind: Option<string>, status: Option<string>)
    ensures TypeConfig(kind) in TypeConfigs.Values && StatusConfig(status) in StatusConfigs.Values
    ensures !(kind.Some? && kind.value in TypeConfigs) ==> TypeConfig(kind).caption == "Quiz"
    ensures !(status.Some? && status.value in StatusConfigs) ==> StatusConfig(status).caption == "Draft"
    ensures TypeConfig(Some("exam")).caption == "Exam" && StatusConfig(Some("archived")).caption == "Archived"
  {
    assert "quiz" in TypeConfigs && "draft" in StatusConfigs;
  }

  /** An assessment row; `totalQuestions` can come back from the database as a number or as text. */
  datatype Assessment = Assessment(
    title: Option<string>, courseTitle: Option<string>, kind: Option<string>, status: Option<string>,
    totalQuestions: Value, questionsLength: Option<nat>, passingScore: Option<int>)

  predicate MatchesSearch(a: Assessment, term: string) {
    term == "" || IncludesIgnoringCase(a.title, term) || IncludesIgnoringCase(a.courseTitle, term)
  }

  predicate MatchesType(a: Assessment, filter: string) {
    filter == "all" || a.kind == Some(filter)
  }

  predicate MatchesStatus(a: Assessment, filter: string) {
    filter == "all" || a.status == Some(filter)
  }

  predicate Matches(a: Assessment, term: string, kind: string, status: string) {
    MatchesSearch(a, term) && MatchesType(a, kind) && MatchesStatus(a, status)
  }

  /** The filter step, in the input order. */
  function Filtered(rows: seq<Assessment>, term: string, kind: string, status: string): seq<Assessment> {
    if rows == [] then []
    else (if Matches(rows[0], term, kind, status) then [rows[0]] else []) + Filtered(rows[1..], term, kind, status)
  }

  /** A row is listed exactly when all three filters pass; with no search and 'all' twice every row is. */
  lemma {:induction false} FilteredMeaning(rows: seq<Assessment>, term: string, kind: string, status: string)
    ensures forall a :: a in Filtered(rows, term, kind, status) <==> a in rows && Matches(a, term, kind, status)
    ensures |Filtered(rows, term, kind, status)| <= |rows|
    ensures term == "" && kind == "all" && status == "all" ==> Filtered(rows, term, kind, status) == rows
  {
    if rows != [] {
      FilteredMeaning(rows[1..], term, kind, status);
      assert rows == [rows[0]] + rows[1..];
    }
  }

  /** The list opens sorted on the creation time, newest first; another column starts descending. */
  const InitialSort := SortState("created_at", Desc)

  function HandleSortAssessments(s: SortState<string>, column: string): (r: SortState<string>)
    ensures r.column == column
    ensures r.direction == if s.column == column then Flip(s.direction) else Desc
  {
    HandleSort(s, column, Desc)
  }

  /** `total_questions || questions?.length || 0`. */
  function QuestionCount(a: Assessment): (r: Value)
    ensures Truthy(a.totalQuestions) ==> r == a.totalQuestions
    ensures !Truthy(a.totalQuestions) && a.questionsLength.Some? && a.questionsLength.value > 0 ==>
              r == Num(a.questionsLength.value)
    ensures !Truthy(a.totalQuestions) && (a.questionsLength.None? || a.questionsLength.value == 0) ==> r == Num(0)
  {
    if Truthy(a.totalQuestions) then a.totalQuestions
    else if a.questionsLength.Some? && a.questionsLength.value > 0 then Num(a.questionsLength.value)
    else Num(0)
  }

  /** `passing_score || 70`: the pass mark the row shows. */
  function PassMark(a: Assessment): (p: int)
    ensures a.passingScore.Some? && a.passingScore.value != 0 ==> p == a.passingScore.value
    ensures a.passingScore.None? || a.passingScore == Some(0) ==> p == 70
  {
    OrInt(a.passingScore, 70)
  }
}

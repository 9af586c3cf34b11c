/**
 * Authoring an assessment (components/assessments/AssessmentForm.jsx).
 *
 * The question list is replaced by a new array on every edit: a question
 * appended, one field or one option of one question changed, or the
 * question at an index filtered out. Submitting checks the title, the
 * course, that there is a question, and that every question is complete,
 * in that order; editing fills the form with the assessment's fields and
 * replaces falsy ones with the defaults.
 */
module AssessmentForm {
  import opened Wrappers
  import opened Strings
  import opened Js

  datatype DraftQuestion = DraftQuestion(
    id: string, text: string, kind: string, points: Value, options: seq<string>, correctAnswer: int,
    explanation: string)

  datatype Form = Form(
    title: string, description: string, courseId: string, kind: string, duration: int, passingScore: int,
    status: string, questions: seq<DraftQuestion>)

  /** The empty form: `course_id` is the page's course, if any. */
  function NewForm(courseId: Option<string>): (f: Form)
    ensures f.courseId == OrStr(courseId, "") && f.questions == []
    ensures f.kind == "quiz" && f.duration == 30 && f.passingScore == 70 && f.status == "draft"
  {
    Form("", "", OrStr(courseId, ""), "quiz", 30, 70, "draft", [])
  }

  /** A stored assessment, its columns possibly missing. */
  datatype Assessment = Assessment(
    title: Option<string>, description: Option<string>, courseId: Option<string>, kind: Option<string>,
    duration: Option<int>, passingScore: Option<int>, status: Option<string>, questions: Option<seq<DraftQuestion>>)

  /** The form an edit starts from: every falsy field is replaced by its default. */
  function EditForm(a: Assessment, courseId: Option<string>): (f: Form)
    ensures f.title == OrStr(a.title, "") && f.description == OrStr(a.description, "")
    ensures f.courseId == OrStr(a.courseId, OrStr(courseId, ""))
    ensures f.kind == OrStr(a.kind, "quiz") && f.status == OrStr(a.status, "draft")
    ensures f.duration == OrInt(a.duration, 30) && f.passingScore == OrInt(a.passingScore, 70)
    ensures f.questions == if a.questions.Some? then a.questions.value else []
  {
    Form(OrStr(a.title, ""), OrStr(a.description, ""), OrStr(a.courseId, OrStr(courseId, "")),
         OrStr(a.kind, "quiz"), OrInt(a.duration, 30), OrInt(a.passingScore, 70), OrStr(a.status, "draft"),
         if a.questions.Some? then a.questions.value else [])
  }

  /** A passing score of 0 cannot be kept: it becomes 70; a missing duration becomes 30. */
  lemma ZeroPassingScoreBecomesDefault(a: Assessment, courseId: Option<string>)
    requires a.passingScore == Some(0) && a.duration.None?
    ensures EditForm(a, courseId).passingScore == 70 && EditForm(a, courseId).duration == 30
  {
  }

  // ---------------------------------------------------------------------
  // The question list

  /** addQuestion's template, its id made from Date.now(). */
  function NewQuestion(nowMs: nat): (q: DraftQuestion)
    ensures q.kind == "multiple_choice" && q.points == Num(1) && q.correctAnswer == 0
    ensures q.options == ["", "", "", ""] && q.text == "" && q.explanation == ""
    ensures q.id == "q_" + NatToString(nowMs)
  {
    DraftQuestion("q_" + NatToString(nowMs), "", "multiple_choice", Num(1), ["", "", "", ""], 0, "")
  }

  function AddQuestion(qs: seq<DraftQuestion>, nowMs: nat): (r: seq<DraftQuestion>)
    ensures |r| == |qs| + 1 && r[..|qs|] == qs && r[|qs|] == NewQuestion(nowMs)
  {
    qs + [NewQuestion(nowMs)]
  }

  /** The `[field]: value` of updateQuestion, for each field the form edits. */
  datatype Field =
    | QuestionText(text: string)
    | Kind(kind: string)
    | Points(points: Value)
    | CorrectAnswer(index: int)
    | Explanation(explanation: string)

  function SetField(q: DraftQuestion, f: Field): DraftQuestion {
    match f
    case QuestionText(t) => q.(text := t)
    case Kind(k) => q.(kind := k)
    case Points(p) => q.(points := p)
    case CorrectAnswer(i) => q.(correctAnswer := i)
    case Explanation(e) => q.(explanation := e)
  }

  /** `questions.map((q, i) => i === index ? { ...q, [field]: value } : q)`. */
  function UpdateQuestion(qs: seq<DraftQuestion>, index: int, f: Field): (r: seq<DraftQuestion>)
    ensures |r| == |qs|
    ensures forall i :: 0 <= i < |qs| ==> r[i] == if i == index then SetField(qs[i], f) else qs[i]
  {
    seq(|qs|, i requires 0 <= i < |qs| => if i == index then SetField(qs[i], f) else qs[i])
  }

  /** Only the named field of the question changes. */
  lemma SetFieldChangesOneField(q: DraftQuestion, text: string)
    ensures var r := SetField(q, QuestionText(text));
            r.text == text && r.id == q.id && r.kind == q.kind && r.points == q.points
            && r.options == q.options && r.correctAnswer == q.correctAnswer && r.explanation == q.explanation
  {
  }

  /** An index outside the list changes nothing. */
  lemma UpdateOutOfRange(qs: seq<DraftQuestion>, index: int, f: Field)
    requires !(0 <= index < |qs|)
    ensures UpdateQuestion(qs, index, f) == qs
  {
  }

  /** A copy of the options with one replaced. */
  function ReplaceOption(q: DraftQuestion, optionIndex: nat, value: string): (r: DraftQuestion)
    requires optionIndex < |q.options|
    ensures r == q.(options := q.options[optionIndex := value])
  {
    q.(options := q.options[optionIndex := value])
  }

  /** updateQuestionOption: exactly one option of one question changes. */
  function UpdateQuestionOption(qs: seq<DraftQuestion>, questionIndex: int, optionIndex: nat, value: string)
    : (r: seq<DraftQuestion>)
    requires 0 <= questionIndex < |qs| ==> optionIndex < |qs[questionIndex].options|
    ensures |r| == |qs|
    ensures forall i :: 0 <= i < |qs| && i != questionIndex ==> r[i] == qs[i]
    ensures 0 <= questionIndex < |qs| ==>
              var q, p := qs[questionIndex], r[questionIndex];
              |p.options| == |q.options| && p.options[optionIndex] == value
              && (forall k :: 0 <= k < |q.options| && k != optionIndex ==> p.options[k] == q.options[k])
              && p == q.(options := p.options)
  {
    seq(|qs|, i requires 0 <= i < |qs| => if i == questionIndex then ReplaceOption(qs[i], optionIndex, value) else qs[i])
  }

  /** `questions.filter((_, i) => i !== index)`, the positions counted from `from`. */
  function FilterOut(qs: seq<DraftQuestion>, index: int, from: int): seq<DraftQuestion>
    decreases |qs|
  {
    if qs == [] then []
    else (if from == index then [] else [qs[0]]) + FilterOut(qs[1..], index, from + 1)
  }

  function DeleteQuestion(qs: seq<DraftQuestion>, index: int): seq<DraftQuestion> {
    FilterOut(qs, index, 0)
  }

  /** The filter skips no element when the index lies outside the positions it visits. */
  lemma {:induction false} FilterOutMissing(qs: seq<DraftQuestion>, index: int, from: int)
    requires index < from || index >= from + |qs|
    ensures FilterOut(qs, index, from) == qs
  {
    if qs != [] {
      FilterOutMissing(qs[1..], index, from + 1);
      assert [qs[0]] + qs[1..] == qs;
    }
  }

  lemma {:induction false} FilterOutAt(qs: seq<DraftQuestion>, index: int, from: int)
    requires from <= index < from + |qs|
    ensures FilterOut(qs, index, from) == qs[..index - from] + qs[index - from + 1..]
  {
    if from == index {
      FilterOutMissing(qs[1..], index, from + 1);
    } else {
      FilterOutAt(qs[1..], index, from + 1);
      assert qs[..index - from] == [qs[0]] + qs[1..][..index - from - 1];
      assert qs[index - from + 1..] == qs[1..][index - from..];
    }
  }

  /** deleteQuestion removes exactly the question at the index, keeping the others in order. */
  lemma DeleteQuestionRemovesOne(qs: seq<DraftQuestion>, index: int)
    ensures 0 <= index < |qs| ==> DeleteQuestion(qs, index) == qs[..index] + qs[index + 1..]
    ensures 0 <= index < |qs| ==> |DeleteQuestion(qs, index)| == |qs| - 1
    ensures !(0 <= index < |qs|) ==> DeleteQuestion(qs, index) == qs
  {
    if 0 <= index < |qs| {
      FilterOutAt(qs, index, 0);
    } else {
      FilterOutMissing(qs, index, 0);
    }
  }

  /** Deleting the question just added gives the list back. */
  lemma DeleteUndoesAdd(qs: seq<DraftQuestion>, nowMs: nat)
    ensures DeleteQuestion(AddQuestion(qs, nowMs), |qs|) == qs
  {
    DeleteQuestionRemovesOne(AddQuestion(qs, nowMs), |qs|);
    assert AddQuestion(qs, nowMs)[..|qs|] == qs;
  }

  // ---------------------------------------------------------------------
  // Submitting

  /** A question the filter in handleSubmit reports: blank text, or a blank option of a multiple-choice question. */
  predicate Incomplete(q: DraftQuestion) {
    IsBlank(q.text) || (q.kind == "multiple_choice" && exists k :: 0 <= k < |q.options| && IsBlank(q.options[k]))
  }

  const TitleMessage := "Please enter an assessment title"
  const CourseMessage := "Please select a course"
  const NoQuestionsMessage := "Please add at least one question"
  const IncompleteMessage := "Please complete all question fields"

  /** The first failing check, if any; None lets onSubmit run. */
  function SubmitError(f: Form): (r: Option<string>)
    ensures r == Some(TitleMessage) <==> IsBlank(f.title)
    ensures r == Some(CourseMessage) <==> !IsBlank(f.title) && f.courseId == ""
    ensures r == Some(NoQuestionsMessage) <==> !IsBlank(f.title) && f.courseId != "" && f.questions == []
    ensures r == Some(IncompleteMessage) <==>
              !IsBlank(f.title) && f.courseId != "" && f.questions != []
              && exists i :: 0 <= i < |f.questions| && Incomplete(f.questions[i])
    ensures r.None? <==>
              !IsBlank(f.title) && f.courseId != "" && f.questions != []
              && forall i :: 0 <= i < |f.questions| ==> !Incomplete(f.questions[i])
  {
    TrimEmptyIffBlank(f.title);
    if |Trim(f.title)| == 0 then Some(TitleMessage)
    else if f.courseId == "" then Some(CourseMessage)
    else if |f.questions| == 0 then Some(NoQuestionsMessage)
    else if exists i :: 0 <= i < |f.questions| && Incomplete(f.questions[i]) then Some(IncompleteMessage)
    else None
  }

  /** A question added from the template cannot be submitted until its text and options are filled in. */
  lemma FreshQuestionIncomplete(nowMs: nat)
    ensures Incomplete(NewQuestion(nowMs))
  {
    assert IsBlank(NewQuestion(nowMs).text);
  }

  /** Short-answer and essay questions need only their text; their options are not looked at. */
  lemma OptionsCheckedForMultipleChoiceOnly(q: DraftQuestion)
    requires q.kind != "multiple_choice"
    ensures Incomplete(q) <==> IsBlank(q.text)
  {
  }
}

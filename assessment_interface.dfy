/**
 * Taking an assessment (components/assessments/AssessmentInterface.jsx).
 *
 * Grading walks the questions once, adding `points || 1` to the total
 * and, for a correctly answered multiple-choice or true/false question, to
 * the earned points; the percentage is rounded half up from the exact
 * ratio. The component keeps the current question, the answers, the
 * remaining seconds and the result as state that its handlers replace.
 */
module AssessmentInterface {
  import opened Wrappers
  import opened Strings
  import opened Js
  import opened Time

  /** A question as the assessment's JSON holds it; missing or NaN points are None. */
  datatype Question = Question(id: string, kind: string, points: Option<int>, correctAnswer: Value)

  /** `answers[question.id]`: undefined for a question not answered. */
  function AnswerOf(answers: map<string, Value>, id: string): Value {
    if id in answers then answers[id] else Undefined
  }

  /** `question.points || 1`. */
  function Worth(q: Question): int {
    OrInt(q.points, 1)
  }

  /** parseInt's result as a value: NaN when nothing could be read. */
  function NumberOf(x: Option<int>): Value {
    if x.Some? then Num(x.value) else NaN
  }

  /** The question is answered correctly: only these two kinds are graded automatically. */
  predicate Earns(q: Question, answers: map<string, Value>) {
    var a := AnswerOf(answers, q.id);
    if q.kind == "multiple_choice" then StrictEquals(NumberOf(ParseIntValue(a)), q.correctAnswer)
    else if q.kind == "true_false" then StrictEquals(a, q.correctAnswer)
    else false
  }

  /** Σ (points || 1) over the questions. */
  function TotalPoints(qs: seq<Question>): int {
    if qs == [] then 0 else TotalPoints(qs[..|qs| - 1]) + Worth(qs[|qs| - 1])
  }

  /** Σ (points || 1) over the correctly answered questions. */
  function EarnedPoints(qs: seq<Question>, answers: map<string, Value>): int {
    if qs == [] then 0
    else EarnedPoints(qs[..|qs| - 1], answers) + (if Earns(qs[|qs| - 1], answers) then Worth(qs[|qs| - 1]) else 0)
  }

  /** The number of correctly answered questions. */
  function CorrectCount(qs: seq<Question>, answers: map<string, Value>): (n: nat)
    ensures n <= |qs|
  {
    if qs == [] then 0
    else CorrectCount(qs[..|qs| - 1], answers) + (if Earns(qs[|qs| - 1], answers) then 1 else 0)
  }

  /** Math.round(earned / total * 100), taken on the exact ratio; 0 when the total is not positive. */
  function Percentage(earned: int, total: int): (p: int)
    ensures total > 0 ==> 2 * total * p <= 200 * earned + total < 2 * total * (p + 1)
    ensures total <= 0 ==> p == 0
  {
    if total > 0 then (200 * earned + total) / (2 * total) else 0
  }

  datatype Score = Score(correctAnswers: nat, totalQuestions: nat, earnedPoints: int, totalPoints: int, percentage: int)

  /** The score of the answers; None is the `0` returned when the questions are missing. */
  function ScoreOf(questions: Option<seq<Question>>, answers: map<string, Value>): Option<Score> {
    if questions.None? then None
    else
      var qs := questions.value;
      var earned, total := EarnedPoints(qs, answers), TotalPoints(qs);
      Some(Score(CorrectCount(qs, answers), |qs|, earned, total, Percentage(earned, total)))
  }

  /** calculateScore: one pass over the questions with three running totals. */
  method CalculateScore(questions: Option<seq<Question>>, answers: map<string, Value>) returns (r: Option<Score>)
    ensures r == ScoreOf(questions, answers)
    ensures r.None? <==> questions.None?
    ensures r.Some? ==> r.value.totalQuestions == |questions.value| && r.value.correctAnswers <= r.value.totalQuestions
  {
    if questions.None? {
      return None;
    }
    var qs := questions.value;
    var correctAnswers: nat := 0;
    var totalPoints := 0;
    var earnedPoints := 0;
    var i := 0;
    while i < |qs|
      invariant 0 <= i <= |qs|
      invariant totalPoints == TotalPoints(qs[..i])
      invariant earnedPoints == EarnedPoints(qs[..i], answers)
      invariant correctAnswers == CorrectCount(qs[..i], answers)
    {
      var question := qs[i];
      TotalsStep(qs, i, answers);
      totalPoints := totalPoints + Worth(question);
      var userAnswer := AnswerOf(answers, question.id);
      if question.kind == "multiple_choice" {
        var picked := NumberOf(ParseIntValue(userAnswer));
        if StrictEquals(picked, question.correctAnswer) {
          correctAnswers := correctAnswers + 1;
          earnedPoints := earnedPoints + Worth(question);
        }
      } else if question.kind == "true_false" {
        if StrictEquals(userAnswer, question.correctAnswer) {
          correctAnswers := correctAnswers + 1;
          earnedPoints := earnedPoints + Worth(question);
        }
      }
      i := i + 1;
    }
    assert qs[..i] == qs;
    var percentage := Percentage(earnedPoints, totalPoints);
    return Some(Score(correctAnswers, |qs|, earnedPoints, totalPoints, percentage));
  }

  /** The three totals over one more question. */
  lemma TotalsStep(qs: seq<Question>, i: nat, answers: map<string, Value>)
    requires i < |qs|
    ensures TotalPoints(qs[..i + 1]) == TotalPoints(qs[..i]) + Worth(qs[i])
    ensures EarnedPoints(qs[..i + 1], answers) == EarnedPoints(qs[..i], answers) + (if Earns(qs[i], answers) then Worth(qs[i]) else 0)
    ensures CorrectCount(qs[..i + 1], answers) == CorrectCount(qs[..i], answers) + (if Earns(qs[i], answers) then 1 else 0)
  {
    assert qs[..i + 1][..i] == qs[..i] && qs[..i + 1][i] == qs[i];
  }

  /** A missing or zero point value counts one point: such questions total their number. */
  lemma {:induction false} DefaultPointEach(qs: seq<Question>)
    requires forall k :: 0 <= k < |qs| ==> qs[k].points.None? || qs[k].points == Some(0)
    ensures TotalPoints(qs) == |qs|
  {
    if qs != [] {
      DefaultPointEach(qs[..|qs| - 1]);
    }
  }

  /** With no negative point value the earned points lie between 0 and the total. */
  lemma {:induction false} EarnedWithinTotal(qs: seq<Question>, answers: map<string, Value>)
    requires forall k :: 0 <= k < |qs| ==> qs[k].points.None? || qs[k].points.value >= 0
    ensures 0 <= EarnedPoints(qs, answers) <= TotalPoints(qs)
    ensures TotalPoints(qs) >= |qs|
  {
    if qs != [] {
      EarnedWithinTotal(qs[..|qs| - 1], answers);
    }
  }

  /** A percentage of earned points that lie between 0 and the total is between 0 and 100. */
  lemma PercentageBounds(earned: int, total: int)
    requires 0 <= earned <= total
    ensures 0 <= Percentage(earned, total) <= 100
    ensures earned == total && total > 0 ==> Percentage(earned, total) == 100
  {
    if total > 0 {
      var p := Percentage(earned, total);
      if p < 0 {
        MulMonotone(2 * total, p + 1, 0);
      }
      if p > 100 {
        MulMonotone(2 * total, 101, p);
        MulMonotone(200, earned, total);
      }
      if earned == total && p < 100 {
        MulMonotone(2 * total, p + 1, 100);
      }
    }
  }

  lemma MulMonotone(a: int, b: int, c: int)
    requires a > 0 && b <= c
    ensures a * b <= a * c
  {
  }

  /** Halves round up: 1 of 8 is 12.5%, shown as 13; 1 of 3 is 33.3…%, shown as 33. */
  lemma RoundingExamples()
    ensures Percentage(1, 8) == 13
    ensures Percentage(1, 3) == 33
    ensures Percentage(2, 3) == 67
  {
  }

  /** Short-answer and essay questions, and any other kind, never earn points. */
  lemma {:induction false} OnlyAutoGradedKindsEarn(qs: seq<Question>, answers: map<string, Value>)
    requires forall k :: 0 <= k < |qs| ==> qs[k].kind != "multiple_choice" && qs[k].kind != "true_false"
    ensures EarnedPoints(qs, answers) == 0 && CorrectCount(qs, answers) == 0
  {
    if qs != [] {
      OnlyAutoGradedKindsEarn(qs[..|qs| - 1], answers);
    }
  }

  /** Unanswered questions earn nothing, provided no true/false key is itself undefined. */
  lemma {:induction false} UnansweredEarnNothing(qs: seq<Question>, answers: map<string, Value>)
    requires forall k :: 0 <= k < |qs| ==> qs[k].id !in answers && qs[k].correctAnswer != Undefined
    ensures EarnedPoints(qs, answers) == 0 && CorrectCount(qs, answers) == 0
  {
    if qs != [] {
      UnansweredEarnNothing(qs[..|qs| - 1], answers);
      ParseIntOfLetter(ToText(Undefined));
    }
  }

  /**
   * The radio value of a multiple-choice answer is the option's index as
   * text, which parseInt reads back; a true/false answer is the text
   * "true" or "false", which a boolean key never strictly equals.
   */
  lemma AnswerEncodings(q: Question, answers: map<string, Value>, index: nat, b: bool)
    ensures q.kind == "multiple_choice" && q.correctAnswer == Num(index) && AnswerOf(answers, q.id) == Str(NatToString(index))
            ==> Earns(q, answers)
    ensures q.kind == "true_false" && q.correctAnswer == Bool(b) ==> !Earns(q, answers) || AnswerOf(answers, q.id) == Bool(b)
  {
    if q.kind == "multiple_choice" && AnswerOf(answers, q.id) == Str(NatToString(index)) {
      ParseIntRoundTrip(index);
    }
  }

  /** `score.percentage >= (passing_score || 70)`; the `0` score has no percentage and fails. */
  predicate Passed(score: Option<Score>, passingScore: Option<int>) {
    score.Some? && score.value.percentage >= OrInt(passingScore, 70)
  }

  lemma PassRule(score: Score, threshold: int)
    ensures threshold != 0 ==> (Passed(Some(score), Some(threshold)) <==> score.percentage >= threshold)
    ensures Passed(Some(score), Some(0)) <==> score.percentage >= 70
    ensures Passed(Some(score), None) <==> score.percentage >= 70
    ensures !Passed(None, Some(threshold))
  {
  }

  /** A score exactly at the threshold passes, one point below it fails. */
  lemma TiePasses(c: nat, n: nat, e: int, t: int, threshold: int)
    requires threshold != 0
    ensures Passed(Some(Score(c, n, e, t, threshold)), Some(threshold))
    ensures !Passed(Some(Score(c, n, e, t, threshold - 1)), Some(threshold))
  {
  }

  // ---------------------------------------------------------------------
  // The countdown

  /** The interval's state update: the seconds left and whether the tick submits. */
  datatype Ticked = Ticked(remaining: int, submits: bool)

  function Tick(prev: int): (t: Ticked)
    ensures t.submits <==> prev <= 1
    ensures t.submits ==> t.remaining == 0
    ensures !t.submits ==> t.remaining == prev - 1 && t.remaining >= 1
  {
    if prev <= 1 then Ticked(0, true) else Ticked(prev - 1, false)
  }

  /** The timer state: seconds left and whether the attempt has been submitted. */
  datatype Clock = Clock(remaining: int, submitted: bool)

  /** One second: the interval runs only while time is left and nothing has been submitted. */
  function Second(c: Clock): Clock {
    if c.remaining > 0 && !c.submitted then
      var t := Tick(c.remaining);
      Clock(t.remaining, t.submits)
    else c
  }

  function Seconds(c: Clock, k: nat): Clock
    decreases k
  {
    if k == 0 then c else Seconds(Second(c), k - 1)
  }

  /** With d seconds on the clock the attempt submits itself at the d-th second, and not before. */
  lemma {:induction false} CountdownSubmitsOnTime(d: int, k: nat)
    requires d >= 1
    ensures k < d ==> Seconds(Clock(d, false), k) == Clock(d - k, false)
    ensures k >= d ==> Seconds(Clock(d, false), k) == Clock(0, true)
  {
    if k > 0 {
      if d == 1 {
        SubmittedStays(Clock(0, true), k - 1);
      } else {
        CountdownSubmitsOnTime(d - 1, k - 1);
      }
    }
  }

  lemma {:induction false} SubmittedStays(c: Clock, k: nat)
    requires c.submitted
    ensures Seconds(c, k) == c
  {
    if k > 0 {
      SubmittedStays(Second(c), k - 1);
    }
  }

  /** formatTime: whole minutes, a colon, and the seconds as two digits. */
  function FormatTime(seconds: nat): string {
    NatToString(seconds / 60) + ":" + Pad2(seconds % 60)
  }

  /** The clock text reads back as the seconds it shows. */
  lemma FormatTimeReadsBack(seconds: nat)
    ensures var parts := Split(FormatTime(seconds), ':');
            |parts| == 2 && ParseInt(parts[0]) == Some(seconds / 60) && |parts[1]| == 2
            && IsDigit(parts[1][0]) && IsDigit(parts[1][1])
            && 60 * ParseInt(parts[0]).value + (parts[1][0] as int - '0' as int) * 10 + (parts[1][1] as int - '0' as int)
               == seconds
  {
    var m, s := NatToString(seconds / 60), Pad2(seconds % 60);
    Pad2Value(seconds % 60);
    assert ':' !in m;
    assert ':' !in s;
    assert FormatTime(seconds) == m + [':'] + s;
    SplitPrefix(m, ':', s);
    SplitNoSep(s, ':');
    ParseNatRoundTrip(seconds / 60, []);
    assert m + [] == m;
  }

  lemma FormatTimeExamples()
    ensures FormatTime(605) == "10:05"
    ensures FormatTime(59) == "0:59"
  {
    assert NatToString(10) == "10";
    assert Pad2(5) == "05";
    assert NatToString(59) == "59";
  }

  /** goToQuestion: the index changes only to a question that exists. */
  function GoToQuestion(current: int, index: int, count: nat): (r: int)
    ensures 0 <= index < count ==> r == index
    ensures !(0 <= index < count) ==> r == current
    ensures 0 <= current < count ==> 0 <= r < count
  {
    if index >= 0 && index < count then index else current
  }

  // ---------------------------------------------------------------------
  // The component's state

  /** What handleSubmit stores: the score's fields, whether it passed, and whether the timer submitted it. */
  datatype Outcome = Outcome(score: Option<Score>, passed: bool, autoSubmit: bool)

  class Attempt {
    const questions: Option<seq<Question>>
    const passingScore: Option<int>
    var currentQuestionIndex: int
    var answers: map<string, Value>
    /** null until an assessment with a duration is loaded. */
    var timeRemaining: Option<int>
    var submitted: bool
    var result: Option<Outcome>

    /** The loaded assessment: `duration * 60` seconds when it has a (truthy) duration. */
    constructor (questions: Option<seq<Question>>, passingScore: Option<int>, duration: Option<int>)
      ensures this.questions == questions && this.passingScore == passingScore
      ensures currentQuestionIndex == 0 && answers == map[] && !submitted && result.None?
      ensures timeRemaining == if duration.Some? && duration.value != 0 then Some(duration.value * 60) else None
    {
      this.questions := questions;
      this.passingScore := passingScore;
      currentQuestionIndex := 0;
      answers := map[];
      timeRemaining := if duration.Some? && duration.value != 0 then Some(duration.value * 60) else None;
      submitted := false;
      result := None;
    }

    /** handleAnswerChange: the answer to one question is replaced, the rest kept. */
    method AnswerChange(questionId: string, answer: Value)
      modifies this
      ensures answers == old(answers)[questionId := answer]
      ensures forall id :: id != questionId ==> AnswerOf(answers, id) == AnswerOf(old(answers), id)
      ensures currentQuestionIndex == old(currentQuestionIndex) && timeRemaining == old(timeRemaining)
      ensures submitted == old(submitted) && result == old(result)
    {
      answers := answers[questionId := answer];
    }

    /** goToQuestion; it reads `assessment.questions.length`, so the questions are there. */
    method GoTo(index: int)
      requires questions.Some?
      modifies this
      ensures currentQuestionIndex == GoToQuestion(old(currentQuestionIndex), index, |questions.value|)
      ensures answers == old(answers) && timeRemaining == old(timeRemaining)
      ensures submitted == old(submitted) && result == old(result)
    {
      if index >= 0 && index < |questions.value| {
        currentQuestionIndex := index;
      }
    }

    /** handleSubmit: the result is recorded and the attempt is submitted; posting it is left out. */
    method Submit(autoSubmit: bool)
      modifies this
      ensures submitted
      ensures var score := ScoreOf(questions, answers);
              result == Some(Outcome(score, Passed(score, passingScore), autoSubmit))
      ensures answers == old(answers) && currentQuestionIndex == old(currentQuestionIndex)
      ensures timeRemaining == old(timeRemaining)
    {
      var score := CalculateScore(questions, answers);
      var passed := score.Some? && score.value.percentage >= OrInt(passingScore, 70);
      result := Some(Outcome(score, passed, autoSubmit));
      submitted := true;
    }

    /** One run of the interval, installed only while time is left and nothing is submitted. */
    method Second()
      requires timeRemaining.Some? && timeRemaining.value > 0 && !submitted
      modifies this
      ensures timeRemaining == Some(Tick(old(timeRemaining.value)).remaining)
      ensures submitted == Tick(old(timeRemaining.value)).submits
      ensures submitted ==> result == Some(Outcome(ScoreOf(questions, answers), Passed(ScoreOf(questions, answers), passingScore), true))
      ensures !submitted ==> result == old(result)
      ensures answers == old(answers) && currentQuestionIndex == old(currentQuestionIndex)
    {
      var prev := timeRemaining.value;
      if prev <= 1 {
        Submit(true);
        timeRemaining := Some(0);
      } else {
        timeRemaining := Some(prev - 1);
      }
    }
  }
}

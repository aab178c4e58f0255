/**
 * The multiple-choice runner: one question at a time, a map from question
 * index to chosen answer index, a finish step and a percentage score.
 */
module MultipleChoice {
  import opened Wrappers

  datatype Answer = Answer(text: string, correct: bool)
  datatype Question = Question(text: string, answers: seq<Answer>)
  datatype Settings = Settings(passingScore: Option<int>, showIncorrectAnswers: bool)

  const DefaultPassingScore: int := 80
  const NoQuestionsMessage: string := "No questions available."

  /** The pass mark: the configured one, or 80 when the settings or their pass mark are absent. */
  function PassingScore(settings: Option<Settings>): int {
    match settings
    case Some(Settings(Some(mark), _)) => mark
    case _ => DefaultPassingScore
  }

  /**
   * `Math.round(100 * correct / total)` in exact arithmetic: halves round up.
   */
  function Percent(correct: nat, total: nat): (p: nat)
    requires 0 < total && correct <= total
    ensures p <= 100
    ensures 2 * total * p <= 200 * correct + total < 2 * total * (p + 1)
  {
    PercentBounds(correct, total);
    (200 * correct + total) / (2 * total)
  }

  lemma PercentBounds(correct: nat, total: nat)
    requires 0 < total && correct <= total
    ensures (200 * correct + total) / (2 * total) <= 100
    ensures var p := (200 * correct + total) / (2 * total);
            2 * total * p <= 200 * correct + total < 2 * total * (p + 1)
  {
    var p := (200 * correct + total) / (2 * total);
    DivisionBounds(200 * correct + total, 2 * total);
    if p > 100 {
      MulMonotone(2 * total, 101, p);
    }
  }

  lemma DivisionBounds(x: nat, d: nat)
    requires d > 0
    ensures d * (x / d) <= x < d * (x / d + 1)
  {
  }

  lemma MulMonotone(d: nat, a: nat, b: nat)
    requires a <= b
    ensures d * a <= d * b
  {
  }

  /** Question `idx` has a recorded choice, and that choice exists and is marked correct. */
  predicate AnsweredCorrectly(q: Question, answers: map<nat, nat>, idx: nat) {
    idx in answers && answers[idx] < |q.answers| && q.answers[answers[idx]].correct
  }

  /** How many of the questions are answered correctly. */
  function CorrectCount(questions: seq<Question>, answers: map<nat, nat>): (c: nat)
    ensures c <= |questions|
  {
    if questions == [] then 0
    else
      var last := |questions| - 1;
      CorrectCount(questions[..last], answers) + (if AnsweredCorrectly(questions[last], answers, last) then 1 else 0)
  }

  /** Every question answered correctly exactly when the count is full. */
  lemma {:induction false} AllCorrectIffFullCount(questions: seq<Question>, answers: map<nat, nat>)
    ensures CorrectCount(questions, answers) == |questions|
            <==> forall idx :: 0 <= idx < |questions| ==> AnsweredCorrectly(questions[idx], answers, idx)
  {
    if questions != [] {
      var init := questions[..|questions| - 1];
      AllCorrectIffFullCount(init, answers);
      assert forall idx :: 0 <= idx < |init| ==> init[idx] == questions[idx];
    }
  }

  /** With no answers recorded nothing counts. */
  lemma {:induction false} NoAnswersNoneCorrect(questions: seq<Question>)
    ensures CorrectCount(questions, map[]) == 0
  {
    if questions != [] {
      NoAnswersNoneCorrect(questions[..|questions| - 1]);
    }
  }

  /** Round-half-up is monotone: a larger numerator never gets a smaller bracket. */
  lemma BracketMonotone(d: nat, x: nat, y: nat, p: nat, q: nat)
    requires 0 < d && x <= y
    requires d * p <= x && y < d * (q + 1)
    ensures p <= q
  {
    if p > q {
      MulMonotone(d, q + 1, p);
    }
  }

  /** Full marks give 100, none give 0, and more correct answers never lower the score. */
  lemma PercentFacts(c1: nat, c2: nat, total: nat)
    requires 0 < total && c1 <= c2 <= total
    ensures Percent(total, total) == 100
    ensures Percent(0, total) == 0
    ensures Percent(c1, total) <= Percent(c2, total)
  {
    var d := 2 * total;
    var full := Percent(total, total);
    BracketMonotone(d, 100 * d, 200 * total + total, 100, full);
    var zero := Percent(0, total);
    BracketMonotone(d, total, total, zero, 0);
    MulMonotone(200, c1, c2);
    BracketMonotone(d, 200 * c1 + total, 200 * c2 + total, Percent(c1, total), Percent(c2, total));
  }

  /** The per-question marks of the review list, in question order. */
  function ReviewMarks(questions: seq<Question>, answers: map<nat, nat>): (marks: seq<bool>)
    ensures |marks| == |questions|
    ensures forall idx :: 0 <= idx < |marks| ==> marks[idx] == AnsweredCorrectly(questions[idx], answers, idx)
  {
    seq(|questions|, idx requires 0 <= idx < |questions| => AnsweredCorrectly(questions[idx], answers, idx))
  }

  function CountTrue(marks: seq<bool>): nat {
    if marks == [] then 0 else CountTrue(marks[..|marks| - 1]) + (if marks[|marks| - 1] then 1 else 0)
  }

  /** The review list marks as many questions correct as the score counts. */
  lemma {:induction false} ReviewAgreesWithScore(questions: seq<Question>, answers: map<nat, nat>)
    ensures CountTrue(ReviewMarks(questions, answers)) == CorrectCount(questions, answers)
  {
    if questions != [] {
      var init := questions[..|questions| - 1];
      ReviewAgreesWithScore(init, answers);
      assert ReviewMarks(questions, answers)[..|questions| - 1] == ReviewMarks(init, answers);
    }
  }

  /** What the player shows. */
  datatype Screen =
    | NoQuestions(message: string)
    | Asking(index: nat, total: nat, nextEnabled: bool, lastQuestion: bool)
    | Results(score: nat, passed: bool, review: Option<seq<bool>>)

  class Runner {
    const questions: seq<Question>
    const settings: Option<Settings>
    var index: nat
    var answers: map<nat, nat>
    var finished: bool
    var showResults: bool

    /** The current index always names a question. */
    ghost predicate Valid()
      reads this
    {
      |questions| > 0 ==> index < |questions|
    }

    constructor(questions: seq<Question>, settings: Option<Settings>)
      ensures this.questions == questions && this.settings == settings
      ensures index == 0 && answers == map[] && !finished && !showResults
      ensures Valid()
    {
      this.questions := questions;
      this.settings := settings;
      index := 0;
      answers := map[];
      finished := false;
      showResults := false;
    }

    /** Choosing an answer: ignored once results show, else records it for the current question only. */
    method SelectAnswer(answerIndex: nat)
      modifies this
      ensures showResults ==> answers == old(answers)
      ensures !showResults ==> answers == old(answers)[index := answerIndex]
      ensures index == old(index) && finished == old(finished) && showResults == old(showResults)
    {
      if showResults {
        return;
      }
      answers := answers[index := answerIndex];
    }

    /** "Next Question" / "Finish Quiz" is enabled once the current question is answered. */
    predicate NextEnabled()
      reads this
    {
      index in answers
    }

    method Next()
      requires Valid() && |questions| > 0 && NextEnabled()
      modifies this
      ensures Valid()
      ensures old(index) < |questions| - 1 ==> index == old(index) + 1 && finished == old(finished) && showResults == old(showResults)
      ensures old(index) == |questions| - 1 ==> index == old(index) && finished && showResults
      ensures answers == old(answers)
    {
      if index < |questions| - 1 {
        index := index + 1;
      } else {
        Finish();
      }
    }

    method Finish()
      modifies this
      ensures finished && showResults
      ensures index == old(index) && answers == old(answers)
    {
      finished := true;
      showResults := true;
    }

    /** The counting loop over the questions, then the rounded percentage. */
    method CalculateScore() returns (score: nat)
      requires |questions| > 0
      ensures score == Percent(CorrectCount(questions, answers), |questions|)
      ensures score <= 100
    {
      var correctCount := 0;
      var idx := 0;
      while idx < |questions|
        invariant idx <= |questions|
        invariant correctCount == CorrectCount(questions[..idx], answers)
      {
        assert questions[..idx + 1][..idx] == questions[..idx];
        var q := questions[idx];
        if idx in answers && answers[idx] < |q.answers| && q.answers[answers[idx]].correct {
          correctCount := correctCount + 1;
        }
        idx := idx + 1;
      }
      assert questions[..idx] == questions;
      score := Percent(correctCount, |questions|);
    }

    method Reset()
      modifies this
      ensures index == 0 && answers == map[] && !finished && !showResults
      ensures Valid()
      ensures |questions| > 0 ==> Percent(CorrectCount(questions, answers), |questions|) == 0
    {
      index := 0;
      answers := map[];
      finished := false;
      showResults := false;
      NoAnswersNoneCorrect(questions);
    }

    function Display(): (screen: Screen)
      reads this
      ensures |questions| == 0 <==> screen == NoQuestions(NoQuestionsMessage)
      ensures |questions| > 0 ==> (screen.Results? <==> finished)
      ensures screen.Results? ==>
                && |questions| > 0
                && screen.score == Percent(CorrectCount(questions, answers), |questions|)
                && screen.score <= 100 && (screen.passed <==> screen.score >= PassingScore(settings))
      ensures screen.Results? ==>
                (screen.review.Some? <==> settings.Some? && settings.value.showIncorrectAnswers)
      ensures screen.Results? && screen.review.Some? ==>
                && |screen.review.value| == |questions|
                && (forall idx :: 0 <= idx < |questions| ==>
                      (screen.review.value[idx] <==> AnsweredCorrectly(questions[idx], answers, idx)))
                && CountTrue(screen.review.value) == CorrectCount(questions, answers)
      ensures screen.Asking? ==>
                && screen.index == index && screen.total == |questions|
                && (screen.nextEnabled <==> index in answers)
                && (screen.lastQuestion <==> index == |questions| - 1)
    {
      if |questions| == 0 then NoQuestions(NoQuestionsMessage)
      else if finished then
        var score := Percent(CorrectCount(questions, answers), |questions|);
        ReviewAgreesWithScore(questions, answers);
        var review := if settings.Some? && settings.value.showIncorrectAnswers
                      then Some(ReviewMarks(questions, answers)) else None;
        Results(score, score >= PassingScore(settings), review)
      else Asking(index, |questions|, index in answers, index == |questions| - 1)
    }
  }

  /** Answering every question correctly passes whenever the pass mark is at most 100. */
  lemma PerfectRunPasses(questions: seq<Question>, answers: map<nat, nat>, settings: Option<Settings>)
    requires |questions| > 0
    requires forall idx :: 0 <= idx < |questions| ==> AnsweredCorrectly(questions[idx], answers, idx)
    requires PassingScore(settings) <= 100
    ensures Percent(CorrectCount(questions, answers), |questions|) >= PassingScore(settings)
  {
    AllCorrectIffFullCount(questions, answers);
    PercentFacts(0, |questions|, |questions|);
  }

  /** Without settings, or without a pass mark in them, the pass mark is 80. */
  lemma DefaultPassMark(score: nat, settings: Option<Settings>)
    ensures settings.None? || settings.value.passingScore.None? ==> (score >= PassingScore(settings) <==> score >= 80)
    ensures settings.Some? && settings.value.passingScore.Some? ==>
              (score >= PassingScore(settings) <==> score >= settings.value.passingScore.value)
  {
  }
}

/**
 * The true/false runner: a selection that can change until the answer is
 * checked, a verdict with optional feedback, and a retry.
 */
module TrueFalse {
  import opened Wrappers

  datatype Content = Content(
    question: string,
    correctResponse: bool,
    feedbackOnCorrect: Option<string>,
    feedbackOnIncorrect: Option<string>)

  const NoContentMessage: string := "No content data"
  const QuestionPlaceholder: string := "Question Text"

  /** The selection matches the expected response; no selection is never correct. */
  function IsCorrect(selected: Option<bool>, correctResponse: bool): (r: bool)
    ensures r <==> selected.Some? && selected.value == correctResponse
  {
    selected == Some(correctResponse)
  }

  /** A feedback text is shown only when it is present and non-empty. */
  function Present(text: Option<string>): Option<string> {
    if text.Some? && text.value != "" then text else None
  }

  /** The feedback line under the verdict. */
  function Feedback(content: Content, correct: bool): (r: Option<string>)
    ensures r.Some? ==> r.value != ""
    ensures correct && r.Some? ==> content.feedbackOnCorrect == r
    ensures !correct && r.Some? ==> content.feedbackOnIncorrect == r
    ensures r.None? <==> (var text := if correct then content.feedbackOnCorrect else content.feedbackOnIncorrect;
                          text.None? || text.value == "")
  {
    if correct then Present(content.feedbackOnCorrect) else Present(content.feedbackOnIncorrect)
  }

  /** The green outline of a True/False button: the expected response, once checked, whatever was chosen. */
  predicate MarkedRight(value: bool, submitted: bool, correctResponse: bool) {
    submitted && correctResponse == value
  }

  /** The red outline: the chosen button, once checked, when the choice was wrong. */
  predicate MarkedWrong(value: bool, selected: Option<bool>, submitted: bool, correctResponse: bool) {
    submitted && selected == Some(value) && !IsCorrect(selected, correctResponse)
  }

  /**
   * After checking, exactly one button is outlined green, no button is
   * both green and red, and a red outline appears exactly when a wrong
   * choice was made, on that choice.
   */
  lemma OutlinesConsistent(selected: Option<bool>, submitted: bool, correctResponse: bool)
    ensures forall v :: !(MarkedRight(v, submitted, correctResponse) && MarkedWrong(v, selected, submitted, correctResponse))
    ensures submitted ==> MarkedRight(true, submitted, correctResponse) != MarkedRight(false, submitted, correctResponse)
    ensures forall v :: MarkedWrong(v, selected, submitted, correctResponse) <==>
              submitted && selected == Some(v) && v != correctResponse
  {
  }

  datatype Screen =
    | NoContent(message: string)
    | Asking(title: string, selected: Option<bool>, checkEnabled: bool)
    | Verdict(title: string, selected: Option<bool>, correct: bool, feedback: Option<string>)

  function Title(question: string): string {
    if question == "" then QuestionPlaceholder else question
  }

  class Player {
    const content: Option<Content>
    var selected: Option<bool>
    var submitted: bool

    constructor(content: Option<Content>)
      ensures this.content == content && selected == None && !submitted
    {
      this.content := content;
      selected := None;
      submitted := false;
    }

    /** Choosing True or False: ignored once the answer is checked. */
    method Select(value: bool)
      modifies this
      ensures old(submitted) ==> selected == old(selected)
      ensures !old(submitted) ==> selected == Some(value)
      ensures submitted == old(submitted)
    {
      if submitted {
        return;
      }
      selected := Some(value);
    }

    /** "Check Answer" is shown before checking and enabled once something is selected. */
    predicate CanCheck()
      reads this
    {
      !submitted && selected.Some?
    }

    method Check()
      requires CanCheck()
      modifies this
      ensures submitted && selected == old(selected)
    {
      submitted := true;
    }

    /** "Retry": back to an unchecked question with nothing selected. */
    method Retry()
      modifies this
      ensures !submitted && selected == None
      ensures content.Some? ==> !IsCorrect(selected, content.value.correctResponse)
    {
      submitted := false;
      selected := None;
    }

    function Display(): (screen: Screen)
      reads this
      ensures content.None? <==> screen == NoContent(NoContentMessage)
      ensures screen.Asking? ==> !submitted && (screen.checkEnabled <==> selected.Some?)
      ensures screen.Verdict? ==> submitted
      ensures screen.Verdict? ==> (screen.correct <==> selected == Some(content.value.correctResponse))
      ensures screen.Verdict? ==> screen.feedback == Feedback(content.value, screen.correct)
    {
      if content.None? then NoContent(NoContentMessage)
      else if !submitted then Asking(Title(content.value.question), selected, selected.Some?)
      else
        var correct := IsCorrect(selected, content.value.correctResponse);
        Verdict(Title(content.value.question), selected, correct, Feedback(content.value, correct))
    }
  }
}

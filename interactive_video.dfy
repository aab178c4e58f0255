/**
 * The interactive-video player: interactions in time order, a seek guard
 * that holds playback to the furthest time reached, at-most-once firing of
 * interactions near the current time, and the quiz overlay.
 */
module InteractiveVideo {
  import opened Wrappers
  import opened VideoContent

  /** Playback may move this far past the furthest time reached in one update. */
  const SeekAllowance: real := 1.0
  /** An interaction fires when playback is closer than this to its time. */
  const TriggerWindow: real := 0.5

  function Abs(x: real): real {
    if x < 0.0 then -x else x
  }

  /** Due now: within the trigger window and its time not yet processed. */
  predicate Due(i: Interaction, now: real, processed: set<real>) {
    Abs(i.time - now) < TriggerWindow && i.time !in processed
  }

  /** `interactions.find(...)`: the first due interaction in list order. */
  function FirstDue(xs: seq<Interaction>, now: real, processed: set<real>): (r: Option<nat>)
    ensures r.Some? ==> r.value < |xs| && Due(xs[r.value], now, processed)
    ensures r.Some? ==> forall k :: 0 <= k < r.value ==> !Due(xs[k], now, processed)
    ensures r.None? ==> forall k :: 0 <= k < |xs| ==> !Due(xs[k], now, processed)
  {
    if xs == [] then None
    else if Due(xs[0], now, processed) then Some(0)
    else
      match FirstDue(xs[1..], now, processed)
      case None => None
      case Some(k) => Some(k + 1)
  }

  /** What reaches the player: a `timeupdate` or a press on the overlay. */
  datatype Event =
    | Tick(time: real)
    | ContinuePressed
    | AnswerChosen(index: nat)
    | CheckPressed
    | TryAgainPressed

  /** The card laid over the paused video. */
  datatype Overlay =
    | Hidden
    | FactCard(title: Option<string>, description: Option<string>)
    | QuizCard(question: Option<string>, checkEnabled: bool, checked: bool,
               continueOffered: bool, tryAgainOffered: bool)

  class Session {
    const interactions: array<Interaction>
    const preventSeeking: bool
    /** The furthest time reached; moves only under `preventSeeking`. */
    var lastTime: real
    /** Times of the interactions already shown. */
    var processed: set<real>
    var active: Option<Interaction>
    var quizSelected: Option<nat>
    var quizSubmitted: bool
    var paused: bool

    ghost predicate Valid()
      reads this, interactions
    {
      SortedByTime(interactions[..])
    }

    /** Mounting: the interaction list is sorted in place by time. */
    constructor(items: array<Interaction>, preventSeeking: bool)
      modifies items
      ensures interactions == items && this.preventSeeking == preventSeeking
      ensures multiset(interactions[..]) == old(multiset(items[..]))
      ensures lastTime == 0.0 && processed == {} && active == None
      ensures quizSelected == None && !quizSubmitted && !paused
      ensures Valid()
    {
      SortByTime(items);
      interactions := items;
      this.preventSeeking := preventSeeking;
      lastTime := 0.0;
      processed := {};
      active := None;
      quizSelected := None;
      quizSubmitted := false;
      paused := false;
    }

    /**
     * A time update from the media player. Under `preventSeeking`, a jump
     * of more than a second past the furthest time is answered with a seek
     * back to it (`seekTo`) and nothing else happens. Otherwise the first
     * due interaction, if any, pauses playback, becomes active and has its
     * time recorded as processed.
     */
    method TimeUpdate(currentTime: real) returns (seekTo: Option<real>, fired: Option<nat>)
      requires Valid()
      modifies this
      ensures Valid()
      ensures preventSeeking && currentTime > old(lastTime) + SeekAllowance ==>
                seekTo == Some(old(lastTime)) && fired == None
                && lastTime == old(lastTime) && processed == old(processed) && active == old(active)
                && paused == old(paused)
      ensures !(preventSeeking && currentTime > old(lastTime) + SeekAllowance) ==>
                && seekTo == None
                && lastTime == (if preventSeeking && currentTime > old(lastTime) then currentTime else old(lastTime))
                && fired == FirstDue(interactions[..], currentTime, old(processed))
      ensures fired.Some? ==>
                && fired.value < interactions.Length
                && active == Some(interactions[fired.value])
                && interactions[fired.value].time !in old(processed)
                && processed == old(processed) + {interactions[fired.value].time}
                && paused
      ensures fired.None? ==> processed == old(processed) && active == old(active) && paused == old(paused)
      ensures old(processed) <= processed
      ensures preventSeeking ==> old(lastTime) <= lastTime
      ensures quizSelected == old(quizSelected) && quizSubmitted == old(quizSubmitted)
    {
      seekTo := None;
      fired := None;
      if preventSeeking {
        if currentTime > lastTime + SeekAllowance {
          seekTo := Some(lastTime);
          return;
        }
        lastTime := if lastTime < currentTime then currentTime else lastTime;
      }
      fired := FirstDue(interactions[..], currentTime, processed);
      if fired.Some? {
        var interaction := interactions[fired.value];
        paused := true;
        active := Some(interaction);
        processed := processed + {interaction.time};
      }
    }

    /** "Continue Video": the overlay closes, the quiz state clears and playback resumes. */
    method Continue()
      modifies this
      ensures active == None && quizSelected == None && !quizSubmitted && !paused
      ensures processed == old(processed) && lastTime == old(lastTime)
    {
      active := None;
      quizSelected := None;
      quizSubmitted := false;
      paused := false;
    }

    /** Choosing a quiz answer: ignored once the answer is checked. */
    method SelectQuiz(index: nat)
      modifies this
      ensures old(quizSubmitted) ==> quizSelected == old(quizSelected)
      ensures !old(quizSubmitted) ==> quizSelected == Some(index)
      ensures quizSubmitted == old(quizSubmitted) && active == old(active)
      ensures processed == old(processed) && lastTime == old(lastTime) && paused == old(paused)
    {
      if !quizSubmitted {
        quizSelected := Some(index);
      }
    }

    /** "Check Answer" shows for an unchecked quiz and is enabled once an answer is chosen. */
    predicate CanSubmitQuiz()
      reads this
    {
      active.Some? && active.value.kind == Quiz && !quizSubmitted && quizSelected.Some?
    }

    method SubmitQuiz()
      requires CanSubmitQuiz()
      modifies this
      ensures quizSubmitted && quizSelected == old(quizSelected) && active == old(active)
      ensures processed == old(processed) && lastTime == old(lastTime) && paused == old(paused)
    {
      quizSubmitted := true;
    }

    /** The active interaction is a quiz and the chosen answer exists and is marked correct. */
    predicate IsCorrect()
      reads this
    {
      && active.Some? && active.value.kind == Quiz
      && active.value.quizContent.Some?
      && quizSelected.Some?
      && quizSelected.value < |active.value.quizContent.value.answers|
      && active.value.quizContent.value.answers[quizSelected.value].correct
    }

    /**
     * The overlay: nothing without an active interaction; a fact card with
     * its continue button; or a quiz card whose check button is enabled
     * once an answer is chosen, and which after checking offers "Continue
     * Video" exactly when the answer is correct and "Try Again" otherwise.
     */
    function Display(): (o: Overlay)
      reads this
      ensures active.None? <==> o.Hidden?
      ensures o.FactCard? <==> active.Some? && active.value.kind == Fact
      ensures o.QuizCard? ==> (o.checkEnabled <==> !quizSubmitted && quizSelected.Some?)
      ensures o.QuizCard? ==> (o.continueOffered <==> quizSubmitted && IsCorrect())
      ensures o.QuizCard? ==> (o.tryAgainOffered <==> quizSubmitted && !IsCorrect())
      ensures o.QuizCard? ==> !(o.continueOffered && o.tryAgainOffered)
    {
      match active
      case None => Hidden
      case Some(i) =>
        if i.kind == Fact then
          FactCard(if i.factContent.Some? then Some(i.factContent.value.title) else None,
                   if i.factContent.Some? then Some(i.factContent.value.description) else None)
        else
          QuizCard(if i.quizContent.Some? then Some(i.quizContent.value.question) else None,
                   !quizSubmitted && quizSelected.Some?, quizSubmitted,
                   quizSubmitted && IsCorrect(), quizSubmitted && !IsCorrect())
    }

    /** "Try Again": the choice and the check clear; the same quiz stays open. */
    method TryAgain()
      modifies this
      ensures !quizSubmitted && quizSelected == None && active == old(active)
      ensures !IsCorrect()
      ensures processed == old(processed) && lastTime == old(lastTime) && paused == old(paused)
    {
      quizSubmitted := false;
      quizSelected := None;
    }

    /**
     * A run of player events (time updates mixed with the overlay's
     * buttons): every interaction that fires has a time that had not fired
     * before, so each time fires at most once per mount. "Check Answer" is
     * pressed only while it is enabled.
     */
    method Play(events: seq<Event>) returns (firedTimes: seq<real>)
      requires Valid()
      modifies this
      ensures Valid()
      ensures forall p, q :: 0 <= p < q < |firedTimes| ==> firedTimes[p] != firedTimes[q]
      ensures forall p :: 0 <= p < |firedTimes| ==> firedTimes[p] in processed && firedTimes[p] !in old(processed)
      ensures old(processed) <= processed
    {
      firedTimes := [];
      var k := 0;
      while k < |events|
        invariant 0 <= k <= |events|
        invariant Valid()
        invariant old(processed) <= processed
        invariant forall p, q :: 0 <= p < q < |firedTimes| ==> firedTimes[p] != firedTimes[q]
        invariant forall p :: 0 <= p < |firedTimes| ==> firedTimes[p] in processed && firedTimes[p] !in old(processed)
      {
        match events[k] {
          case Tick(t) =>
            var seekTo, fired := TimeUpdate(t);
            if fired.Some? {
              firedTimes := firedTimes + [interactions[fired.value].time];
            }
          case ContinuePressed =>
            Continue();
          case AnswerChosen(i) =>
            SelectQuiz(i);
          case CheckPressed =>
            if CanSubmitQuiz() {
              SubmitQuiz();
            }
          case TryAgainPressed =>
            TryAgain();
        }
        k := k + 1;
      }
    }
  }
}

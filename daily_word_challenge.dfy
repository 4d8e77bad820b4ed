/** The daily word challenge: five fixed questions about one word, stepped
    through, scored, and then marked complete. */
module DailyWordChallenge {
  import opened Scoring

  /** The correct option of each challenge, in order. */
  const AnswerKey: seq<nat> := [0, 1, 1, 0, 1]

  const TotalSteps := 5

  /** The screen shown; completion takes precedence over the results. */
  datatype View = QuestionView | ResultsView | CompletedView

  class Challenge {
    var currentStep: int
    var answers: map<nat, nat>
    var showResults: bool
    var score: int
    var isCompleted: bool
    /** How many times `onComplete` has been called. */
    var completions: nat

    ghost predicate Valid()
      reads this
    {
      0 <= currentStep < TotalSteps
    }

    constructor ()
      ensures Valid()
      ensures currentStep == 0 && answers == map[] && !showResults && score == 0 && !isCompleted
      ensures completions == 0
    {
      currentStep, answers, showResults, score, isCompleted := 0, map[], false, 0, false;
      completions := 0;
    }

    function CurrentView(): (v: View)
      reads this
      ensures v == CompletedView <==> isCompleted
      ensures v == ResultsView <==> showResults && !isCompleted
      ensures v == QuestionView <==> !showResults && !isCompleted
    {
      if isCompleted then CompletedView
      else if showResults then ResultsView
      else QuestionView
    }

    /** `handleAnswerSelect`: only the current step's answer changes. */
    method AnswerSelect(a: nat)
      requires Valid() && CurrentView() == QuestionView
      modifies this
      ensures Valid()
      ensures answers == old(answers)[currentStep := a]
      ensures forall i :: i != currentStep ==> (i in answers <==> i in old(answers))
      ensures forall i :: i != currentStep && i in answers ==> answers[i] == old(answers)[i]
      ensures currentStep == old(currentStep) && showResults == old(showResults)
      ensures score == old(score) && isCompleted == old(isCompleted) && completions == old(completions)
    {
      answers := answers[currentStep := a];
    }

    /** `handleNext`: the next step, or the results after the last; disabled
        until the current step is answered. */
    method Next()
      requires Valid() && CurrentView() == QuestionView && currentStep in answers
      modifies this
      ensures Valid()
      ensures old(currentStep) < TotalSteps - 1 ==> currentStep == old(currentStep) + 1 && !showResults
      ensures old(currentStep) == TotalSteps - 1 ==> currentStep == old(currentStep) && showResults
      ensures answers == old(answers) && score == old(score)
      ensures isCompleted == old(isCompleted) && completions == old(completions)
    {
      if currentStep < TotalSteps - 1 {
        currentStep := currentStep + 1;
      } else {
        showResults := true;
      }
    }

    /** `handlePrevious`: back one step, never below the first. */
    method Previous()
      requires Valid() && CurrentView() == QuestionView
      modifies this
      ensures Valid()
      ensures currentStep == if old(currentStep) > 0 then old(currentStep) - 1 else 0
      ensures answers == old(answers) && showResults == old(showResults) && score == old(score)
      ensures isCompleted == old(isCompleted) && completions == old(completions)
    {
      if currentStep > 0 {
        currentStep := currentStep - 1;
      }
    }

    /** The scoring effect, run while the results are shown. */
    method ComputeScore()
      requires Valid() && showResults
      modifies this
      ensures Valid()
      ensures score == Score(AnswerKey, answers)
      ensures 0 <= score <= 100
      ensures currentStep == old(currentStep) && answers == old(answers) && showResults
      ensures isCompleted == old(isCompleted) && completions == old(completions)
    {
      score := Score(AnswerKey, answers);
    }

    /** `handleComplete`, offered on the results screen: the challenge is
        marked complete and `onComplete` is called once. */
    method Complete()
      requires Valid() && CurrentView() == ResultsView
      modifies this
      ensures Valid()
      ensures isCompleted && CurrentView() == CompletedView
      ensures completions == old(completions) + 1
      ensures currentStep == old(currentStep) && answers == old(answers)
      ensures showResults == old(showResults) && score == old(score)
    {
      isCompleted := true;
      completions := completions + 1;
    }

    /** `resetChallenge`: all five state fields return to their initial
        values. */
    method Reset()
      requires Valid()
      modifies this
      ensures Valid()
      ensures currentStep == 0 && answers == map[] && !showResults && score == 0 && !isCompleted
      ensures CurrentView() == QuestionView
      ensures completions == old(completions)
    {
      currentStep, answers, showResults, score, isCompleted := 0, map[], false, 0, false;
    }
  }

  /** Each correct answer is worth 20 points. */
  lemma ScoreIsTwentyPerCorrect(answers: map<nat, nat>)
    ensures Score(AnswerKey, answers) == 20 * CorrectCount(AnswerKey, answers)
  {
    var c := CorrectCount(AnswerKey, answers);
    var r := Score(AnswerKey, answers);
    assert 10 * r <= 200 * c + 5 < 10 * (r + 1);
  }
}

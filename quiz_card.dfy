/** One quiz question card: the option picked, whether the answer was
    submitted, and the feedback shown. A submit is taken at most once between
    resets, and reports its correctness to the page exactly once. */
module QuizCard {
  import opened Wrappers

  datatype QuizOption = QuizOption(id: string, text: string, correct: bool)

  /** What the card shows after a submit. */
  datatype Feedback = Feedback(correct: bool, explanation: string)

  /** Whether the option picked is a correct one: the `correct` flag of the
      first option with that id, and false when no option has it. */
  function IsCorrect(options: seq<QuizOption>, selected: string): (r: bool)
    ensures r <==>
      exists i :: 0 <= i < |options| && options[i].id == selected && options[i].correct &&
        forall j :: 0 <= j < i ==> options[j].id != selected
  {
    if options == [] then false
    else if options[0].id == selected then options[0].correct
    else
      var r := IsCorrect(options[1..], selected);
      assert r ==>
        exists i :: 0 <= i < |options| && options[i].id == selected && options[i].correct &&
          forall j :: 0 <= j < i ==> options[j].id != selected
      by {
        if r {
          var i :| 0 <= i < |options[1..]| && options[1..][i].id == selected && options[1..][i].correct &&
            forall j :: 0 <= j < i ==> options[1..][j].id != selected;
          assert options[i + 1] == options[1..][i];
          forall j | 0 <= j < i + 1 ensures options[j].id != selected {
            if j > 0 { assert options[j] == options[1..][j - 1]; }
          }
        }
      }
      assert (exists i :: 0 <= i < |options| && options[i].id == selected && options[i].correct &&
                forall j :: 0 <= j < i ==> options[j].id != selected) ==> r
      by {
        if exists i :: 0 <= i < |options| && options[i].id == selected && options[i].correct &&
             forall j :: 0 <= j < i ==> options[j].id != selected {
          var i :| 0 <= i < |options| && options[i].id == selected && options[i].correct &&
            forall j :: 0 <= j < i ==> options[j].id != selected;
          assert i > 0;
          assert options[1..][i - 1] == options[i];
          forall j | 0 <= j < i - 1 ensures options[1..][j].id != selected {
            assert options[1..][j] == options[j + 1];
          }
        }
      }
      r
  }

  /** With distinct option ids, picking an option is correct exactly when
      that option is flagged correct, and an id no option has is wrong. */
  lemma CorrectnessByOption(options: seq<QuizOption>, selected: string)
    requires forall i, j :: 0 <= i < j < |options| ==> options[i].id != options[j].id
    ensures IsCorrect(options, selected) <==>
      exists i :: 0 <= i < |options| && options[i].id == selected && options[i].correct
    ensures (forall i :: 0 <= i < |options| ==> options[i].id != selected) ==> !IsCorrect(options, selected)
  {
    if exists i :: 0 <= i < |options| && options[i].id == selected && options[i].correct {
      var i :| 0 <= i < |options| && options[i].id == selected && options[i].correct;
      assert forall j :: 0 <= j < i ==> options[j].id != selected;
    }
  }

  class Card {
    const options: seq<QuizOption>
    const explanation: string
    var selectedAnswer: string
    var submitted: bool
    var feedback: Option<Feedback>
    /** How many times the page's answer callback ran since the last reset. */
    ghost var answersReported: nat

    /** Feedback is shown exactly when the answer was submitted, it describes
        the option that stays picked, and it was reported once. */
    ghost predicate Valid()
      reads this
    {
      && (submitted <==> feedback.Some?)
      && answersReported == (if submitted then 1 else 0)
      && (submitted ==>
            selectedAnswer != "" &&
            feedback.value == Feedback(IsCorrect(options, selectedAnswer), explanation))
    }

    constructor (options: seq<QuizOption>, explanation: string)
      ensures Valid()
      ensures this.options == options && this.explanation == explanation
      ensures selectedAnswer == "" && !submitted && feedback == None && answersReported == 0
    {
      this.options := options;
      this.explanation := explanation;
      selectedAnswer := "";
      submitted := false;
      feedback := None;
      answersReported := 0;
    }

    /** Picking an option. The option group is disabled once the answer is
        submitted, so the pick is ignored then. */
    method Select(id: string)
      requires Valid()
      modifies this
      ensures Valid()
      ensures selectedAnswer == (if old(submitted) then old(selectedAnswer) else id)
      ensures submitted == old(submitted) && feedback == old(feedback)
      ensures answersReported == old(answersReported)
    {
      if !submitted {
        selectedAnswer := id;
      }
    }

    /** Submitting the picked option. `reported` is the value the page's
        answer callback receives, or None when the submit is ignored (nothing
        picked, or already submitted). */
    method Submit() returns (reported: Option<bool>)
      requires Valid()
      modifies this
      ensures Valid()
      ensures selectedAnswer == old(selectedAnswer)
      ensures old(selectedAnswer == "" || submitted) ==>
        && reported == None
        && submitted == old(submitted) && feedback == old(feedback)
        && answersReported == old(answersReported)
      ensures old(selectedAnswer != "" && !submitted) ==>
        && reported == Some(IsCorrect(options, selectedAnswer))
        && submitted
        && feedback == Some(Feedback(IsCorrect(options, selectedAnswer), explanation))
        && answersReported == old(answersReported) + 1
      ensures answersReported <= 1
    {
      if selectedAnswer == "" || submitted {
        return None;
      }
      var isCorrect := IsCorrect(options, selectedAnswer);
      submitted := true;
      feedback := Some(Feedback(isCorrect, explanation));
      answersReported := answersReported + 1;
      reported := Some(isCorrect);
    }

    /** Clears the card for another attempt. */
    method Reset()
      modifies this
      ensures Valid()
      ensures selectedAnswer == "" && !submitted && feedback == None && answersReported == 0
    {
      selectedAnswer := "";
      submitted := false;
      feedback := None;
      answersReported := 0;
    }
  }
}

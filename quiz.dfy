/** The quiz page: a linear walk through a fixed number of questions that
    records one boolean per answer, keeps the score, and ends in a completed
    state rated in three tiers. */
module Quiz {

  /** The number of `true` entries. */
  function CountCorrect(answers: seq<bool>): (n: nat)
    ensures n <= |answers|
  {
    if answers == [] then 0 else (if answers[0] then 1 else 0) + CountCorrect(answers[1..])
  }

  lemma {:induction false} CountCorrectAppend(answers: seq<bool>, correct: bool)
    ensures CountCorrect(answers + [correct]) == CountCorrect(answers) + (if correct then 1 else 0)
  {
    if answers != [] {
      assert (answers + [correct])[1..] == answers[1..] + [correct];
      CountCorrectAppend(answers[1..], correct);
    }
  }

  /** The four state fields of the page agree: the score counts the correct
      answers, one answer is recorded per question passed, and the completed
      state sits on the last question with every question answered. */
  predicate Consistent(questionCount: nat, index: nat, score: nat, answers: seq<bool>, completed: bool) {
    && questionCount > 0
    && index < questionCount
    && score == CountCorrect(answers)
    && (if completed then index == questionCount - 1 && |answers| == questionCount
        else |answers| == index)
  }

  /** While the quiz runs the score never exceeds the number of questions
      passed, and a completed quiz has answered every question. */
  lemma ScoreWithinProgress(questionCount: nat, index: nat, score: nat, answers: seq<bool>, completed: bool)
    requires Consistent(questionCount, index, score, answers, completed)
    ensures !completed ==> score <= index
    ensures score <= questionCount
    ensures completed ==> |answers| == questionCount
  {
  }

  class QuizSession {
    /** How many questions the quiz has. */
    const questionCount: nat
    var currentQuestionIndex: nat
    var score: nat
    var answers: seq<bool>
    var quizCompleted: bool

    ghost predicate Valid()
      reads this
    {
      Consistent(questionCount, currentQuestionIndex, score, answers, quizCompleted)
    }

    /** The state a fresh page and a reset both give. */
    ghost predicate AtStart()
      reads this
    {
      currentQuestionIndex == 0 && score == 0 && answers == [] && !quizCompleted
    }

    constructor (questionCount: nat)
      requires questionCount > 0
      ensures Valid() && AtStart() && this.questionCount == questionCount
    {
      this.questionCount := questionCount;
      currentQuestionIndex := 0;
      score := 0;
      answers := [];
      quizCompleted := false;
    }

    /** Records the answer to the current question: appends it, scores it,
        and moves to the next question or, on the last one, completes. */
    method Answer(correct: bool)
      requires Valid() && !quizCompleted
      modifies this
      ensures Valid()
      ensures answers == old(answers) + [correct]
      ensures score == old(score) + (if correct then 1 else 0)
      ensures old(currentQuestionIndex) < questionCount - 1 ==>
        currentQuestionIndex == old(currentQuestionIndex) + 1 && !quizCompleted
      ensures old(currentQuestionIndex) == questionCount - 1 ==>
        currentQuestionIndex == old(currentQuestionIndex) && quizCompleted
    {
      CountCorrectAppend(answers, correct);
      answers := answers + [correct];
      if correct {
        score := score + 1;
      }
      if currentQuestionIndex < questionCount - 1 {
        currentQuestionIndex := currentQuestionIndex + 1;
      } else {
        quizCompleted := true;
      }
    }

    /** Starts the quiz over. */
    method Reset()
      requires Valid()
      modifies this
      ensures Valid() && AtStart()
    {
      currentQuestionIndex := 0;
      score := 0;
      answers := [];
      quizCompleted := false;
    }
  }

  // ---------------------------------------------------------------------
  // Rating and progress

  /** The three tiers of the completion screen. */
  datatype Rating = Excellent | Good | KeepStudying

  /** The score in percent of the number of questions. */
  function Percentage(score: nat, questionCount: nat): real
    requires questionCount > 0
  {
    score as real / questionCount as real * 100.0
  }

  /** At least 80% is excellent, at least 60% good, anything less asks for
      more study; the tiers stated in whole numbers, without the division. */
  function Rate(score: nat, questionCount: nat): (r: Rating)
    requires questionCount > 0
    ensures r == Excellent <==> score * 100 >= 80 * questionCount
    ensures r == Good <==> 60 * questionCount <= score * 100 < 80 * questionCount
    ensures r == KeepStudying <==> score * 100 < 60 * questionCount
  {
    var percentage := Percentage(score, questionCount);
    var n := questionCount as real;
    var scaled := score * 100;
    assert percentage * n == scaled as real;
    AtLeastInIntegers(percentage, n, scaled, 80, questionCount);
    AtLeastInIntegers(percentage, n, scaled, 60, questionCount);
    if percentage >= 80.0 then Excellent
    else if percentage >= 60.0 then Good
    else KeepStudying
  }

  /** The colour of the final score: success from 80%, warning from 60%,
      destructive below. */
  function ScoreColor(score: nat, questionCount: nat): (c: string)
    requires questionCount > 0
    ensures c == "text-success" <==> score * 100 >= 80 * questionCount
    ensures c == "text-warning" <==> 60 * questionCount <= score * 100 < 80 * questionCount
    ensures c == "text-destructive" <==> score * 100 < 60 * questionCount
  {
    match Rate(score, questionCount)
    case Excellent => "text-success"
    case Good => "text-warning"
    case KeepStudying => "text-destructive"
  }

  /** The message of the completion screen, one per tier; a perfect score
      always gets the first. */
  function ScoreMessage(score: nat, questionCount: nat): (m: string)
    requires questionCount > 0
    ensures m == ExcellentMessage <==> score * 100 >= 80 * questionCount
    ensures m == GoodMessage <==> 60 * questionCount <= score * 100 < 80 * questionCount
    ensures m == KeepStudyingMessage <==> score * 100 < 60 * questionCount
    ensures score == questionCount ==> m == ExcellentMessage
  {
    match Rate(score, questionCount)
    case Excellent => ExcellentMessage
    case Good => GoodMessage
    case KeepStudying => KeepStudyingMessage
  }

  const ExcellentMessage: string :=
    "Excellent work! You have a strong understanding of investment fundamentals."
  const GoodMessage: string := "Good job! Consider reviewing the areas you missed."
  const KeepStudyingMessage: string := "Keep studying! Review the lesson materials and try again."

  /** `p >= t` exactly when `p * n >= t * n` for a positive `n`, here with
      both sides known as whole numbers. */
  lemma AtLeastInIntegers(p: real, n: real, scaled: int, t: int, count: nat)
    requires n == count as real && n > 0.0 && p * n == scaled as real
    ensures p >= t as real <==> scaled >= t * count
  {
    assert (t * count) as real == t as real * n;
    if p >= t as real {
      assert p * n >= t as real * n;
    } else {
      assert p * n < t as real * n;
    }
  }

  function Rank(r: Rating): nat {
    match r
    case KeepStudying => 0
    case Good => 1
    case Excellent => 2
  }

  /** A higher score never gets a lower tier. */
  lemma RateMonotone(score1: nat, score2: nat, questionCount: nat)
    requires questionCount > 0 && score1 <= score2
    ensures Rank(Rate(score1, questionCount)) <= Rank(Rate(score2, questionCount))
  {
  }

  /** The page's five questions: four or five right is excellent, three is
      good, fewer asks for more study. */
  lemma FiveQuestionTiers(score: nat)
    requires score <= 5
    ensures Rate(score, 5) == (if score >= 4 then Excellent else if score == 3 then Good else KeepStudying)
  {
  }

  /** The progress bar while a question is shown: the share of questions
      reached, counting the current one. */
  function Progress(index: nat, questionCount: nat): (r: real)
    requires index < questionCount
    ensures 0.0 < r <= 100.0
    ensures index == questionCount - 1 ==> r == 100.0
  {
    var reached := (index + 1) as real;
    var n := questionCount as real;
    assert reached / n <= 1.0 by {
      assert reached <= n;
    }
    assert index == questionCount - 1 ==> reached == n && n / n == 1.0;
    (index + 1) as real / questionCount as real * 100.0
  }
}

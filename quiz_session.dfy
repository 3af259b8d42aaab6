/**
 * The quiz part of the model's state: the two mode flags and the three Java `int`
 * counters, with one transition per quiz operation of the model.
 */
module QuizSession {
  import opened JavaInt

  datatype QuizState = QuizState(
    isQuizMode: bool,
    isRandomQuiz: bool,
    quizModeIndex: int,
    quizScore: int,
    quizTotalQuestions: int)

  /** The counters are Java `int`s. */
  predicate Valid(q: QuizState) {
    IsInt(q.quizModeIndex) && IsInt(q.quizScore) && IsInt(q.quizTotalQuestions)
  }

  /** The state of a freshly constructed model: no quiz, all counters zero. */
  const Initial: QuizState := QuizState(false, false, 0, 0, 0)

  /** `setQuizMode(on)`: starting a quiz clears the counters; ending one keeps them. */
  function SetQuizMode(q: QuizState, on: bool): (r: QuizState)
    requires Valid(q)
    ensures Valid(r)
    ensures r.isQuizMode == on && r.isRandomQuiz == q.isRandomQuiz
    ensures on ==> r.quizModeIndex == 0 && r.quizScore == 0 && r.quizTotalQuestions == 0
    ensures !on ==> r.quizModeIndex == q.quizModeIndex && r.quizScore == q.quizScore
                    && r.quizTotalQuestions == q.quizTotalQuestions
  {
    if on then q.(isQuizMode := true, quizModeIndex := 0, quizScore := 0, quizTotalQuestions := 0)
    else q.(isQuizMode := false)
  }

  /** The quiz part of `setRandomQuizMode(on)`: leaving random mode rewinds the index. */
  function SetRandomQuizMode(q: QuizState, on: bool): (r: QuizState)
    requires Valid(q)
    ensures Valid(r)
    ensures r.isRandomQuiz == on && r.isQuizMode == q.isQuizMode
    ensures r.quizModeIndex == if on then q.quizModeIndex else 0
    ensures r.quizScore == q.quizScore && r.quizTotalQuestions == q.quizTotalQuestions
  {
    if on then q.(isRandomQuiz := true) else q.(isRandomQuiz := false, quizModeIndex := 0)
  }

  /** `incrementQuizModeIndex`: one more question asked, whatever the answer was. */
  function IncrementQuizModeIndex(q: QuizState): (r: QuizState)
    requires Valid(q)
    ensures Valid(r)
    ensures r.quizModeIndex == Wrap(q.quizModeIndex + 1)
    ensures r.quizTotalQuestions == Wrap(q.quizTotalQuestions + 1)
    ensures r.quizScore == q.quizScore && r.isQuizMode == q.isQuizMode && r.isRandomQuiz == q.isRandomQuiz
  {
    q.(quizModeIndex := Increment(q.quizModeIndex), quizTotalQuestions := Increment(q.quizTotalQuestions))
  }

  /** `updateWithCorrectAttempt`: one more correct answer; nothing is checked against the total. */
  function UpdateWithCorrectAttempt(q: QuizState): (r: QuizState)
    requires Valid(q)
    ensures Valid(r)
    ensures r.quizScore == Wrap(q.quizScore + 1)
    ensures r == q.(quizScore := r.quizScore)
  {
    q.(quizScore := Increment(q.quizScore))
  }

  /** `resetQuiz`: the counters go back to zero; both flags stay as they are. */
  function ResetQuiz(q: QuizState): (r: QuizState)
    requires Valid(q)
    ensures Valid(r)
    ensures r.quizModeIndex == 0 && r.quizScore == 0 && r.quizTotalQuestions == 0
    ensures r.isQuizMode == q.isQuizMode && r.isRandomQuiz == q.isRandomQuiz
  {
    q.(quizModeIndex := 0, quizScore := 0, quizTotalQuestions := 0)
  }

  /** `updateQuizModeIndex(i)` of the earlier model interface: the index becomes `i`. */
  function UpdateQuizModeIndex(q: QuizState, i: int): (r: QuizState)
    requires Valid(q) && IsInt(i)
    ensures Valid(r)
    ensures r.quizModeIndex == i && r == q.(quizModeIndex := i)
  {
    q.(quizModeIndex := i)
  }

  /** `n` consecutive calls of `incrementQuizModeIndex`. */
  function IncrementTimes(q: QuizState, n: nat): (r: QuizState)
    requires Valid(q)
    ensures Valid(r)
    decreases n
  {
    if n == 0 then q else IncrementQuizModeIndex(IncrementTimes(q, n - 1))
  }

  /**
   * After `setQuizMode(true)` and `n` increments, the index and the total both equal
   * `n` (truncated to an `int`) and the score is still zero.
   */
  lemma {:induction false} StartThenIncrement(q: QuizState, n: nat)
    requires Valid(q)
    ensures IncrementTimes(SetQuizMode(q, true), n)
            == QuizState(true, q.isRandomQuiz, Wrap(n), 0, Wrap(n))
    decreases n
  {
    if n > 0 {
      var prev := IncrementTimes(SetQuizMode(q, true), n - 1);
      StartThenIncrement(q, n - 1);
      IncrementWrap(n - 1);
      assert prev.quizModeIndex == prev.quizTotalQuestions == Wrap(n - 1);
      assert IncrementTimes(SetQuizMode(q, true), n) == IncrementQuizModeIndex(prev);
    }
  }

  /** One answered question: a correct answer is credited, then the question is counted. */
  function Answer(q: QuizState, correct: bool): (r: QuizState)
    requires Valid(q)
    ensures Valid(r)
  {
    IncrementQuizModeIndex(if correct then UpdateWithCorrectAttempt(q) else q)
  }

  /** Answering the questions in order, `answers[i]` telling whether answer `i` was correct. */
  function AnswerAll(q: QuizState, answers: seq<bool>): (r: QuizState)
    requires Valid(q)
    ensures Valid(r)
    decreases |answers|
  {
    if |answers| == 0 then q else Answer(AnswerAll(q, answers[..|answers| - 1]), answers[|answers| - 1])
  }

  /** The number of correct answers. */
  function CountCorrect(answers: seq<bool>): (n: nat)
    ensures n <= |answers|
    decreases |answers|
  {
    if |answers| == 0 then 0
    else CountCorrect(answers[..|answers| - 1]) + (if answers[|answers| - 1] then 1 else 0)
  }

  /**
   * A quiz of N questions of which M were answered correctly ends with total and index N
   * and score M (all truncated to `int`).
   */
  lemma {:induction false} QuizTally(q: QuizState, answers: seq<bool>)
    requires Valid(q)
    ensures var r := AnswerAll(SetQuizMode(q, true), answers);
            r.isQuizMode && r.isRandomQuiz == q.isRandomQuiz
            && r.quizScore == Wrap(CountCorrect(answers))
            && r.quizTotalQuestions == Wrap(|answers|) && r.quizModeIndex == Wrap(|answers|)
    decreases |answers|
  {
    if |answers| > 0 {
      var init := answers[..|answers| - 1];
      QuizTally(q, init);
      IncrementWrap(|init|);
      IncrementWrap(CountCorrect(init));
    }
  }

  /** While no counter has wrapped, a quiz driven this way never scores above its total. */
  lemma ScoreWithinTotal(q: QuizState, answers: seq<bool>)
    requires Valid(q) && |answers| <= INT_MAX
    ensures AnswerAll(SetQuizMode(q, true), answers).quizScore
            <= AnswerAll(SetQuizMode(q, true), answers).quizTotalQuestions
  {
    QuizTally(q, answers);
  }

  /** The state alone does not keep the score within the total: a correct attempt may come first. */
  lemma ScoreMayExceedTotal(q: QuizState)
    requires Valid(q)
    ensures var r := UpdateWithCorrectAttempt(SetQuizMode(q, true));
            r.quizScore == 1 && r.quizTotalQuestions == 0
  {
  }

  /** Crediting and counting commute, so the order in which a caller makes the two calls does not matter. */
  lemma CreditAndCountCommute(q: QuizState)
    requires Valid(q)
    ensures IncrementQuizModeIndex(UpdateWithCorrectAttempt(q))
            == UpdateWithCorrectAttempt(IncrementQuizModeIndex(q))
  {
  }

  /** During a quiz, `resetQuiz` is the same as starting the quiz again. */
  lemma ResetIsRestart(q: QuizState)
    requires Valid(q) && q.isQuizMode
    ensures ResetQuiz(q) == SetQuizMode(q, true)
  {
  }
}

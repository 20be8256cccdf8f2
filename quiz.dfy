/**
 * The quiz page (src/pages/Quiz.tsx): a timed walk through an ordered list of
 * questions. The page keeps five state cells (current index, selected option,
 * score, completed flag, seconds left); `handleNext` scores the current
 * question and moves on, one effect resets the selection and the countdown
 * whenever the index changes, and another counts down once a second and calls
 * `handleNext` when it reaches zero.
 *
 * The transitions are stated first as functions over a `State` value, then
 * carried out in place by the class `Session`, whose methods are proved
 * against those functions.
 */
module Quiz {
  import opened Common

  datatype Question = Question(question: string, options: seq<string>, answer: string)

  /** Seconds each question stays on screen before it is skipped. */
  const TimeLimit: nat := 30

  /** The two questions the page ships with. */
  const QuizData: seq<Question> := [
    Question("What is the capital of France?", ["Berlin", "Madrid", "Paris", "Lisbon"], "Paris"),
    Question("Which planet is known as the Red Planet?", ["Earth", "Mars", "Jupiter", "Saturn"], "Mars")
  ]

  /** The page's five state cells, as one value. */
  datatype State = State(
    current: nat,              // currentQuestion
    selected: Option<string>,  // selectedOption (null is None)
    score: nat,
    completed: bool,           // quizCompleted
    timeLeft: nat)

  /** The state the page mounts with. */
  function Start(): State
  {
    State(0, None, 0, false, TimeLimit)
  }

  /** How many times `handleNext` has run on an uncompleted session in state `s`. */
  function Answered(s: State): nat
  {
    s.current + if s.completed then 1 else 0
  }

  /**
   * What holds of every state a session reaches: the index names a question,
   * completion happens only on the last question, the score counts at most
   * the questions already left behind, the countdown never exceeds the limit
   * and any selection is one of the current question's options.
   */
  ghost predicate Inv(qs: seq<Question>, s: State)
  {
    && 0 < |qs|
    && s.current < |qs|
    && (s.completed ==> s.current == |qs| - 1)
    && s.score <= Answered(s)
    && s.timeLeft <= TimeLimit
    && (s.selected.Some? ==> s.selected.value in qs[s.current].options)
  }

  /** While a question is on screen a countdown is pending. */
  ghost predicate Ticking(s: State)
  {
    !s.completed ==> 0 < s.timeLeft
  }

  /** The point a question earns when `sel` is the selection at the moment of leaving it. */
  function Credit(q: Question, sel: Option<string>): (r: nat)
    ensures r <= 1
    ensures r == 1 <==> sel.Some? && sel.value == q.answer
    ensures sel.None? ==> r == 0
  {
    if sel == Some(q.answer) then 1 else 0
  }

  /** Choosing an option on the radio group. */
  function Select(s: State, option: string): (r: State)
    ensures r.selected == Some(option)
    ensures r.(selected := s.selected) == s
  {
    s.(selected := Some(option))
  }

  /**
   * `handleNext` followed by the reset effect: score the current question,
   * then either move to the next question with a cleared selection and a full
   * countdown, or, on the last question, mark the quiz completed and stay.
   * Nothing here looks at `completed`, exactly as in the page.
   */
  function HandleNext(qs: seq<Question>, s: State): (r: State)
    requires s.current < |qs|
    ensures r.current < |qs|
    ensures r.score == s.score + Credit(qs[s.current], s.selected)
    ensures r.completed <==> s.completed || s.current == |qs| - 1
    ensures s.current < |qs| - 1 ==>
              r.current == s.current + 1 && r.selected == None && r.timeLeft == TimeLimit
    ensures s.current == |qs| - 1 ==>
              r.current == s.current && r.selected == s.selected && r.timeLeft == s.timeLeft
    ensures Inv(qs, s) && !s.completed ==> Inv(qs, r) && Ticking(r) && Answered(r) == Answered(s) + 1
  {
    var score := s.score + Credit(qs[s.current], s.selected);
    if s.current < |qs| - 1 then
      State(s.current + 1, None, score, s.completed, TimeLimit)
    else
      s.(score := score, completed := true)
  }

  /**
   * One second of the countdown effect exactly as the page has it: the
   * pending timeout lowers the counter, and when that makes it zero the effect
   * re-runs at once and calls `handleNext`. With the counter already at zero no
   * timeout is pending and nothing happens. There is no `quizCompleted` guard.
   */
  function SecondAsWritten(qs: seq<Question>, s: State): (r: State)
    requires s.current < |qs|
    ensures r.current < |qs|
    ensures s.timeLeft == 0 ==> r == s
    ensures s.timeLeft == 1 ==> r == HandleNext(qs, s.(timeLeft := 0))
    ensures s.timeLeft > 1 ==> r == s.(timeLeft := s.timeLeft - 1)
  {
    if s.timeLeft == 0 then s
    else if s.timeLeft == 1 then HandleNext(qs, s.(timeLeft := 0))
    else s.(timeLeft := s.timeLeft - 1)
  }

  /**
   * One second of the countdown with the timer stopped on completion: a
   * completed session is left as it is, otherwise as `SecondAsWritten`.
   */
  function Second(qs: seq<Question>, s: State): (r: State)
    requires s.current < |qs|
    ensures r.current < |qs|
    ensures s.completed ==> r == s
    ensures !s.completed && s.timeLeft > 1 ==> r == s.(timeLeft := s.timeLeft - 1)
    ensures !s.completed && s.timeLeft == 1 ==> r == HandleNext(qs, s.(timeLeft := 0))
    ensures Inv(qs, s) && Ticking(s) ==> Inv(qs, r) && Ticking(r)
  {
    if s.completed then s else SecondAsWritten(qs, s)
  }

  /** `n` seconds of the corrected countdown. */
  function Seconds(qs: seq<Question>, s: State, n: nat): (r: State)
    requires s.current < |qs|
    ensures r.current < |qs|
    decreases n
  {
    if n == 0 then s else Seconds(qs, Second(qs, s), n - 1)
  }

  /** `n` seconds of the countdown as the page has it. */
  function SecondsAsWritten(qs: seq<Question>, s: State, n: nat): (r: State)
    requires s.current < |qs|
    ensures r.current < |qs|
    decreases n
  {
    if n == 0 then s else SecondsAsWritten(qs, SecondAsWritten(qs, s), n - 1)
  }

  /**
   * The Next button's label: "Next" while another question follows, "Submit"
   * on the last one. The label tells what pressing the button will do.
   */
  function NextLabel(qs: seq<Question>, s: State): (r: string)
    requires s.current < |qs| && !s.completed
    ensures r == "Next" || r == "Submit"
    ensures r == "Submit" <==> HandleNext(qs, s).completed
    ensures r == "Next" <==> HandleNext(qs, s).current == s.current + 1
  {
    if s.current < |qs| - 1 then "Next" else "Submit"
  }

  /**
   * The Next button is enabled only when `selectedOption` is truthy: a
   * selection is present and it is not the empty string.
   */
  function NextEnabled(s: State): (r: bool)
    ensures r <==> s.selected.Some? && s.selected.value != ""
    ensures s.selected == Some("") ==> !r
  {
    match s.selected
    case None => false
    case Some(v) => v != ""
  }

  /** A press of an enabled Next button always carries one of the current question's options. */
  lemma EnabledMeansOption(qs: seq<Question>, s: State)
    requires Inv(qs, s) && NextEnabled(s)
    ensures s.selected.Some? && s.selected.value in qs[s.current].options
  {
  }

  /** The "Question i/N" heading shows a position between 1 and N. */
  function Position(qs: seq<Question>, s: State): (r: nat)
    requires Inv(qs, s)
    ensures 1 <= r <= |qs|
    ensures r - 1 == s.current
  {
    s.current + 1
  }

  /** A fresh session satisfies the invariant. */
  lemma StartInv(qs: seq<Question>)
    requires 0 < |qs|
    ensures Inv(qs, Start()) && Ticking(Start())
  {
  }

  /** Selecting one of the current question's options keeps the invariant. */
  lemma SelectInv(qs: seq<Question>, s: State, option: string)
    requires Inv(qs, s) && Ticking(s)
    requires option in qs[s.current].options
    ensures Inv(qs, Select(s, option)) && Ticking(Select(s, option))
  {
  }

  /** Every reachable state has a score no larger than the number of questions. */
  lemma ScoreBounded(qs: seq<Question>, s: State)
    requires Inv(qs, s)
    ensures s.score <= |qs|
    ensures s.completed ==> Answered(s) == |qs|
  {
  }

  /** Fewer seconds than are left only count the timer down. */
  lemma {:induction false} CountdownRunsDown(qs: seq<Question>, s: State, k: nat)
    requires s.current < |qs| && !s.completed
    requires k < s.timeLeft
    ensures Seconds(qs, s, k) == s.(timeLeft := s.timeLeft - k)
    decreases k
  {
    if k > 0 {
      var s' := s.(timeLeft := s.timeLeft - 1);
      assert Second(qs, s) == s';
      CountdownRunsDown(qs, s', k - 1);
    }
  }

  /**
   * Letting the whole countdown run out is the same as pressing Next with the
   * selection in effect: the session auto-advances exactly once.
   */
  lemma {:induction false} TimeoutAdvances(qs: seq<Question>, s: State)
    requires s.current < |qs| && !s.completed && 0 < s.timeLeft
    ensures Seconds(qs, s, s.timeLeft) == HandleNext(qs, s.(timeLeft := 0))
    decreases s.timeLeft
  {
    if s.timeLeft > 1 {
      var s' := s.(timeLeft := s.timeLeft - 1);
      assert Second(qs, s) == s';
      TimeoutAdvances(qs, s');
      assert s'.(timeLeft := 0) == s.(timeLeft := 0);
    }
  }

  /** A question left to time out with nothing selected earns no point. */
  lemma TimeoutWithoutSelectionNoCredit(qs: seq<Question>, s: State)
    requires s.current < |qs| && !s.completed && 0 < s.timeLeft
    requires s.selected == None
    ensures Seconds(qs, s, s.timeLeft).score == s.score
  {
    TimeoutAdvances(qs, s);
  }

  /** With the corrected timer a completed session never changes again. */
  lemma {:induction false} CompletedIsFinal(qs: seq<Question>, s: State, n: nat)
    requires s.current < |qs| && s.completed
    ensures Seconds(qs, s, n) == s
    decreases n
  {
    if n > 0 {
      CompletedIsFinal(qs, Second(qs, s), n - 1);
    }
  }

  /** Any number of corrected seconds keeps the invariant, so the score stays within the question count. */
  lemma {:induction false} SecondsKeepInv(qs: seq<Question>, s: State, n: nat)
    requires Inv(qs, s) && Ticking(s)
    ensures Inv(qs, Seconds(qs, s, n)) && Ticking(Seconds(qs, s, n))
    ensures Seconds(qs, s, n).score <= |qs|
    decreases n
  {
    if n > 0 {
      SecondsKeepInv(qs, Second(qs, s), n - 1);
    }
  }

  /**
   * As the page is written, a session completed by pressing Submit with the
   * right answer selected keeps counting down, and when the counter reaches
   * zero `handleNext` scores the last question a second time.
   */
  lemma {:induction false} LastQuestionScoredTwice(qs: seq<Question>, s: State)
    requires s.current == |qs| - 1 && s.completed
    requires s.selected == Some(qs[s.current].answer)
    requires 0 < s.timeLeft
    ensures SecondsAsWritten(qs, s, s.timeLeft) == s.(score := s.score + 1, timeLeft := 0)
    decreases s.timeLeft
  {
    if s.timeLeft > 1 {
      var s' := s.(timeLeft := s.timeLeft - 1);
      assert SecondAsWritten(qs, s) == s';
      LastQuestionScoredTwice(qs, s');
    }
  }

  /** The answers in `picks`, one per question in order, as a score. */
  function CountCorrect(qs: seq<Question>, picks: seq<Option<string>>): (r: nat)
    requires |picks| <= |qs|
    ensures r <= |picks|
    decreases |picks|
  {
    if picks == [] then 0
    else CountCorrect(qs, picks[..|picks| - 1]) + Credit(qs[|picks| - 1], picks[|picks| - 1])
  }

  /**
   * A session started afresh in which question i is left (by Next/Submit or by
   * timeout) with `picks[i]` selected.
   */
  function Play(qs: seq<Question>, picks: seq<Option<string>>): (r: State)
    requires 0 < |qs| && |picks| <= |qs|
    ensures |picks| < |qs| ==> r == State(|picks|, None, CountCorrect(qs, picks), false, TimeLimit)
    ensures |picks| == |qs| ==> r.completed && r.current == |qs| - 1 && r.score == CountCorrect(qs, picks)
    decreases |picks|
  {
    if picks == [] then Start()
    else
      var s := Play(qs, picks[..|picks| - 1]);
      HandleNext(qs, s.(selected := picks[|picks| - 1]))
  }

  /**
   * A full run completes after exactly as many advances as there are
   * questions, visits every index once in order, and ends with a score between
   * 0 and the question count that counts the questions answered correctly.
   */
  lemma {:induction false} PlayCompletesAtEnd(qs: seq<Question>, picks: seq<Option<string>>)
    requires 0 < |qs| && |picks| <= |qs|
    ensures Play(qs, picks).completed <==> |picks| == |qs|
    ensures forall k :: 0 <= k < |picks| ==> Play(qs, picks[..k]).current == k
    ensures Play(qs, picks).score == CountCorrect(qs, picks) <= |picks|
  {
    forall k | 0 <= k < |picks|
      ensures Play(qs, picks[..k]).current == k
    {
      assert |picks[..k]| < |qs|;
    }
  }

  /** Answering both sample questions correctly scores 2 of 2. */
  lemma SampleAllCorrect()
    ensures Play(QuizData, [Some("Paris"), Some("Mars")]).score == 2
    ensures Play(QuizData, [Some("Paris"), Some("Mars")]).completed
  {
    var picks := [Some("Paris"), Some("Mars")];
    assert picks[..1] == [Some("Paris")];
    assert CountCorrect(QuizData, [Some("Paris")]) == 1;
  }

  /**
   * The sample run: Paris, Next, then thirty seconds with nothing selected.
   * The second question times out without credit and the quiz ends at 1/2.
   */
  lemma SampleTimeout()
    ensures HandleNext(QuizData, Select(Start(), "Paris")) == State(1, None, 1, false, TimeLimit)
    ensures Seconds(QuizData, State(1, None, 1, false, TimeLimit), TimeLimit) == State(1, None, 1, true, 0)
  {
    TimeoutAdvances(QuizData, State(1, None, 1, false, TimeLimit));
  }

  /**
   * On the sample quiz, answering both questions correctly and waiting after
   * Submit shows "3/2" as the page is written, while with the corrected timer
   * the score stays 2.
   */
  lemma SampleScoreExceedsTotal()
    ensures var done := HandleNext(QuizData, Select(HandleNext(QuizData, Select(Start(), "Paris")), "Mars"));
            && done == State(1, Some("Mars"), 2, true, TimeLimit)
            && SecondsAsWritten(QuizData, done, TimeLimit).score == 3 > |QuizData|
            && Seconds(QuizData, done, TimeLimit).score == 2
  {
    var done := State(1, Some("Mars"), 2, true, TimeLimit);
    LastQuestionScoredTwice(QuizData, done);
    CompletedIsFinal(QuizData, done, TimeLimit);
  }

  /**
   * The quiz page's live state: five fields mirroring its five state cells,
   * changed in place by the events the page reacts to.
   */
  class Session {
    const quiz: seq<Question>
    var currentQuestion: nat
    var selectedOption: Option<string>
    var score: nat
    var quizCompleted: bool
    var timeLeft: nat

    /** The fields as one `State` value. */
    function View(): State
      reads this
    {
      State(currentQuestion, selectedOption, score, quizCompleted, timeLeft)
    }

    ghost predicate Valid()
      reads this
    {
      Inv(quiz, View()) && Ticking(View())
    }

    /** Mounting the page. */
    constructor (quiz: seq<Question>)
      requires 0 < |quiz|
      ensures Valid() && this.quiz == quiz
      ensures currentQuestion == 0 && selectedOption == None && score == 0
      ensures !quizCompleted && timeLeft == TimeLimit
      ensures View() == Start()
    {
      this.quiz := quiz;
      currentQuestion := 0;
      selectedOption := None;
      score := 0;
      quizCompleted := false;
      timeLeft := TimeLimit;
    }

    /** The radio group reports a choice among the current question's options. */
    method SelectOption(option: string)
      requires Valid() && !quizCompleted
      requires option in quiz[currentQuestion].options
      modifies this
      ensures Valid()
      ensures View() == Select(old(View()), option)
      ensures selectedOption == Some(option)
      ensures unchanged(this`currentQuestion, this`score, this`quizCompleted, this`timeLeft)
    {
      selectedOption := Some(option);
    }

    /**
     * `handleNext`, run by the Next/Submit button or by the countdown, together
     * with the reset effect that follows an index change.
     */
    method Advance()
      requires Inv(quiz, View()) && !quizCompleted
      modifies this
      ensures Valid()
      ensures View() == HandleNext(quiz, old(View()))
      ensures score == old(score) + Credit(quiz[old(currentQuestion)], old(selectedOption))
      ensures old(currentQuestion) < |quiz| - 1 ==>
                currentQuestion == old(currentQuestion) + 1 && selectedOption == None
                && timeLeft == TimeLimit && !quizCompleted
      ensures old(currentQuestion) == |quiz| - 1 ==>
                quizCompleted && unchanged(this`currentQuestion, this`selectedOption, this`timeLeft)
    {
      if selectedOption == Some(quiz[currentQuestion].answer) {
        score := score + 1;
      }
      if currentQuestion < |quiz| - 1 {
        currentQuestion := currentQuestion + 1;
        // the effect keyed on the index
        selectedOption := None;
        timeLeft := TimeLimit;
      } else {
        quizCompleted := true;
      }
    }

    /** One second passes; the countdown is stopped once the quiz is completed. */
    method Tick()
      requires Valid()
      modifies this
      ensures Valid()
      ensures View() == Second(quiz, old(View()))
    {
      if quizCompleted {
        return;
      }
      timeLeft := timeLeft - 1;
      if timeLeft == 0 {
        Advance();
      }
    }

    /** "Retake Quiz" reloads the page: every state cell returns to its initial value. */
    method Retake()
      requires Valid() && quizCompleted
      modifies this
      ensures Valid()
      ensures View() == Start()
    {
      currentQuestion := 0;
      selectedOption := None;
      score := 0;
      quizCompleted := false;
      timeLeft := TimeLimit;
    }
  }
}

/**
 * The quiz session controller: one micro-quiz, from loading a generated batch through
 * answering each question to emitting the session result.
 */
module Session {
  import opened Wrappers
  import opened Types

  /** Questions requested per micro-session. */
  const BatchSize: nat := 3

  /** What the question generator delivered: a batch, or a rejection. */
  datatype Generation = Generated(batch: seq<Question>) | GenerationFailed

  /** The message shown when generation fails. */
  const GenerationFailedMessage: string := "無法產生題目，請檢查網路或稍後再試"

  /** Which panel the session shows; the loading check comes before the error check. */
  datatype Screen = LoadingScreen | ErrorScreen(message: string) | QuestionScreen

  predicate IsCorrect(q: Question, answer: int) {
    answer == q.correctIndex
  }

  /** Correct answers among the first `|answers|` questions. */
  function Score(qs: seq<Question>, answers: seq<int>): (n: nat)
    requires |answers| <= |qs|
    ensures n <= |answers|
    decreases |answers|
  {
    if |answers| == 0 then 0
    else
      var k := |answers| - 1;
      Score(qs, answers[..k]) + (if IsCorrect(qs[k], answers[k]) then 1 else 0)
  }

  /** The wrongly answered questions among the first `|answers|`, in order. */
  function Failed(qs: seq<Question>, answers: seq<int>): (f: seq<Question>)
    requires |answers| <= |qs|
    ensures |f| <= |answers|
    ensures forall q :: q in f ==> q in qs[..|answers|]
    decreases |answers|
  {
    if |answers| == 0 then []
    else
      var k := |answers| - 1;
      var f' := Failed(qs, answers[..k]);
      assert qs[..k + 1] == qs[..k] + [qs[k]];
      f' + (if IsCorrect(qs[k], answers[k]) then [] else [qs[k]])
  }

  /** Every answered question is either counted or listed as failed, never both. */
  lemma {:induction false} ScorePlusFailed(qs: seq<Question>, answers: seq<int>)
    requires |answers| <= |qs|
    ensures Score(qs, answers) + |Failed(qs, answers)| == |answers|
    decreases |answers|
  {
    if |answers| > 0 {
      ScorePlusFailed(qs, answers[..|answers| - 1]);
    }
  }

  /**
   * The session result when the count is taken from the answers themselves: every
   * question counted exactly once.
   */
  function Tally(qs: seq<Question>, answers: seq<int>): (r: SessionResult)
    requires |answers| == |qs|
    ensures r.total == |qs|
    ensures 0 <= r.correctCount <= r.total
    ensures r.correctCount + |r.failedQuestions| == r.total
  {
    ScorePlusFailed(qs, answers);
    SessionResult(Score(qs, answers), |qs|, Failed(qs, answers))
  }

  /** The count emitted on completion as written: the score plus one more if the last pick was right. */
  function EmittedCorrectCount(score: int, last: Question, selectedOption: Option<int>): int {
    score + (if selectedOption == Some(last.correctIndex) then 1 else 0)
  }

  /** Scores already include the last answer, so the emitted count counts a correct last answer twice. */
  lemma {:induction false} EmittedCountDoublesLast(qs: seq<Question>, answers: seq<int>)
    requires |qs| > 0 && |answers| == |qs|
    ensures var last := |qs| - 1;
      EmittedCorrectCount(Score(qs, answers), qs[last], Some(answers[last]))
        == Tally(qs, answers).correctCount + (if IsCorrect(qs[last], answers[last]) then 1 else 0)
  {
  }

  /** When every answer is right the emitted count exceeds the number of questions. */
  lemma {:induction false} AllCorrectOvercounts(qs: seq<Question>, answers: seq<int>)
    requires |qs| > 0 && |answers| == |qs|
    requires forall i :: 0 <= i < |qs| ==> IsCorrect(qs[i], answers[i])
    ensures EmittedCorrectCount(Score(qs, answers), qs[|qs| - 1], Some(answers[|qs| - 1])) == |qs| + 1
  {
    AllCorrectScore(qs, answers);
  }

  lemma {:induction false} AllCorrectScore(qs: seq<Question>, answers: seq<int>)
    requires |answers| <= |qs|
    requires forall i :: 0 <= i < |answers| ==> IsCorrect(qs[i], answers[i])
    ensures Score(qs, answers) == |answers|
    decreases |answers|
  {
    if |answers| > 0 {
      AllCorrectScore(qs, answers[..|answers| - 1]);
    }
  }

  /** A one-question quiz answered correctly is reported as two correct out of one. */
  lemma OneRightAnswerReportsTwo(q: Question)
    ensures EmittedCorrectCount(Score([q], [q.correctIndex]), q, Some(q.correctIndex)) == 2
  {
    assert [q.correctIndex][..0] == [];
  }

  class QuizSession {
    const subject: Subject
    const topics: seq<string>
    var questions: seq<Question>
    var loading: bool
    var currentIndex: nat
    var selectedOption: Option<int>
    var isAnswered: bool
    var score: nat
    var failedQuestions: seq<Question>
    var error: Option<string>
    /** The option picked for each question answered so far. */
    ghost var answers: seq<int>

    /** Which panel is shown. */
    function Screen(): Screen
      reads this
    {
      if loading then LoadingScreen
      else if error.Some? then ErrorScreen(error.value)
      else QuestionScreen
    }

    /** The session's invariant, in each of its three phases. */
    ghost predicate Valid()
      reads this
    {
      && (Screen() != QuestionScreen ==>
            questions == [] && answers == [] && currentIndex == 0 && !isAnswered && selectedOption.None?)
      && (loading ==> error.None?)
      && (Screen() == QuestionScreen ==> 0 < |questions| && currentIndex < |questions|)
      && |answers| == currentIndex + (if isAnswered then 1 else 0)
      && |answers| <= |questions|
      && (isAnswered <==> selectedOption.Some?)
      && (isAnswered ==> answers[currentIndex] == selectedOption.value)
      && score == Score(questions, answers)
      && failedQuestions == Failed(questions, answers)
    }

    /** The option buttons react only while the current question is unanswered. */
    predicate OptionsEnabled()
      reads this
    {
      Screen() == QuestionScreen && !isAnswered
    }

    /** The Next button reacts only once the current question is answered. */
    predicate NextEnabled()
      reads this
    {
      Screen() == QuestionScreen && isAnswered
    }

    /** An exit button is offered on the error panel and the question screen, not while loading. */
    predicate ExitOffered()
      reads this
    {
      !loading
    }

    /** A session starts out loading, with nothing answered. */
    constructor (subject: Subject, topics: seq<string>)
      ensures this.subject == subject && this.topics == topics
      ensures loading && Screen() == LoadingScreen
      ensures questions == [] && currentIndex == 0 && selectedOption == None && !isAnswered
      ensures score == 0 && failedQuestions == [] && error == None
      ensures Valid()
    {
      this.subject := subject;
      this.topics := topics;
      questions := [];
      loading := true;
      currentIndex := 0;
      selectedOption := None;
      isAnswered := false;
      score := 0;
      failedQuestions := [];
      error := None;
      answers := [];
    }

    /**
     * The load effect's outcome for a request of `BatchSize` questions on the session's
     * subject and topics: a batch is stored and shown, a rejection shows the error panel.
     * A delivered batch is never empty.
     */
    method Load(outcome: Generation)
      requires Valid() && loading
      requires outcome.Generated? ==> |outcome.batch| > 0
      modifies this
      ensures Valid() && !loading
      ensures outcome.Generated? ==> questions == outcome.batch && error == None && Screen() == QuestionScreen
      ensures outcome.GenerationFailed? ==>
        questions == [] && error == Some(GenerationFailedMessage) && Screen() == ErrorScreen(GenerationFailedMessage)
      ensures currentIndex == 0 && selectedOption == None && !isAnswered
      ensures score == 0 && failedQuestions == []
      ensures !OptionsEnabled() || outcome.Generated?
      ensures !NextEnabled()
    {
      match outcome
      case Generated(batch) =>
        questions := batch;
        loading := false;
      case GenerationFailed =>
        error := Some(GenerationFailedMessage);
        loading := false;
    }

    /** Choosing an option: the first choice on a question is recorded and scored; later ones are ignored. */
    method OptionClick(index: int)
      requires Valid() && Screen() == QuestionScreen
      modifies this
      ensures Valid() && Screen() == QuestionScreen
      ensures old(isAnswered) ==> unchanged(this)
      ensures !old(isAnswered) ==>
        && isAnswered && selectedOption == Some(index)
        && questions == old(questions) && currentIndex == old(currentIndex)
        && (IsCorrect(questions[currentIndex], index) ==>
              score == old(score) + 1 && failedQuestions == old(failedQuestions))
        && (!IsCorrect(questions[currentIndex], index) ==>
              score == old(score) && failedQuestions == old(failedQuestions) + [questions[currentIndex]])
    {
      if isAnswered {
        return;
      }
      selectedOption := Some(index);
      isAnswered := true;
      answers := answers + [index];
      assert answers[..currentIndex] == old(answers);
      var currentQ := questions[currentIndex];
      if index == currentQ.correctIndex {
        score := score + 1;
      } else {
        failedQuestions := failedQuestions + [currentQ];
      }
    }

    /**
     * Moving on: before the last question, the next one is shown afresh; on the last one,
     * the session result is emitted as the code computes it.
     */
    method Next() returns (r: Option<SessionResult>)
      requires Valid() && NextEnabled()
      modifies this
      ensures Valid() && questions == old(questions)
      ensures old(currentIndex) < |questions| - 1 ==>
        && r == None && Screen() == QuestionScreen
        && currentIndex == old(currentIndex) + 1 && selectedOption == None && !isAnswered
        && score == old(score) && failedQuestions == old(failedQuestions)
      ensures old(currentIndex) == |questions| - 1 ==>
        && unchanged(this)
        && r == Some(SessionResult(
             EmittedCorrectCount(score, questions[currentIndex], selectedOption),
             |questions|,
             failedQuestions))
        && answers == old(answers) && |answers| == |questions|
        && r.value.correctCount
             == Tally(questions, answers).correctCount
                + (if IsCorrect(questions[currentIndex], selectedOption.value) then 1 else 0)
        && r.value.failedQuestions == Tally(questions, answers).failedQuestions
    {
      if currentIndex < |questions| - 1 {
        currentIndex := currentIndex + 1;
        selectedOption := None;
        isAnswered := false;
        r := None;
      } else {
        var last := questions[currentIndex];
        r := Some(SessionResult(EmittedCorrectCount(score, last, selectedOption), |questions|, failedQuestions));
      }
    }
  }

  /** In every phase at most one of the answer controls reacts, and loading offers nothing. */
  lemma GuardsExclusive(s: QuizSession)
    ensures !(s.OptionsEnabled() && s.NextEnabled())
    ensures s.loading ==> !s.OptionsEnabled() && !s.NextEnabled() && !s.ExitOffered()
    ensures s.Screen().ErrorScreen? ==> !s.OptionsEnabled() && !s.NextEnabled() && s.ExitOffered()
  {
  }

  /** The bookkeeping identity between the score, the failed list and the position. */
  lemma Bookkeeping(s: QuizSession)
    requires s.Valid()
    ensures s.score + |s.failedQuestions| == s.currentIndex + (if s.isAnswered then 1 else 0)
  {
    ScorePlusFailed(s.questions, s.answers);
  }
}

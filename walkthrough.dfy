/**
 * A whole study round driven through the navigation controller and a quiz session, as
 * the screens call them.
 */
module Walkthrough {
  import opened Wrappers
  import opened Types
  import opened Constants
  import Progress
  import Session
  import Navigation

  /**
   * The one-question batch the generator falls back to when its service call fails: a
   * medium algebra item whose first option is right.
   */
  function FallbackQuestion(): (q: Question)
    ensures q.correctIndex == 0 && |q.options| == 4
  {
    Question(
      "mock-1",
      "API 連線錯誤。以下為測試題目：若 a, b 為實數且 a+b=5, ab=3，求 a^3 + b^3 之值？",
      ["80", "95", "110", "125"],
      0,
      "利用公式 a^3+b^3 = (a+b)(a^2-ab+b^2) 或 (a+b)^3 - 3ab(a+b)。\n(a+b)^3 - 3ab(a+b) = 5^3 - 3(3)(5) = 125 - 45 = 80。",
      Medium,
      "乘法公式")
  }

  /**
   * A session that receives the fallback batch and has its only question answered
   * correctly: the single right answer is credited twice, so it reports two correct out
   * of one.
   */
  method FallbackSession(subject: Subject, topics: seq<string>) returns (r: SessionResult)
    ensures r.correctCount == 2 && r.total == 1 && r.failedQuestions == []
  {
    var session := new Session.QuizSession(subject, topics);
    var q := FallbackQuestion();
    session.Load(Session.Generated([q]));
    assert session.questions == [q] && session.currentIndex == 0 && !session.isAnswered;
    session.OptionClick(q.correctIndex);
    assert session.questions == [q] && session.currentIndex == 0 && session.score == 1;
    assert session.failedQuestions == [];
    var res := session.Next();
    r := res.value;
  }

  /**
   * Quick-start physics from the dashboard, play the fallback session and finish: the
   * round earns two answers' worth of XP and records two correct out of one.
   */
  method FallbackRound(today: string, now: int) returns (xp: int, correct: int, total: int)
    ensures xp == 2 * XpPerCorrect
    ensures correct == 2 && total == 1
  {
    var app := new Navigation.App(today);
    app.ViewChange(QuizSetupView, Some(Physics));
    assert app.Rendered() == Navigation.SessionScreen(Physics, []);
    var r := FallbackSession(app.selectedSubject, app.selectedTopics);
    assert app.progress.xp == 0;
    app.QuizComplete(r, now);
    xp := app.progress.xp;
    correct := app.lastResult.value.correctCount;
    total := app.lastResult.value.total;
  }
}

/** The shared data model: closed enumerations and the records passed between components. */
module Types {

  /** The four quizzed subjects; new ones need a code change, not data. */
  datatype Subject = Math | Physics | Chemistry | Biology

  datatype Difficulty = Easy | Medium | Hard

  /** Per-topic status; a topic absent from the status map counts as `Locked`. */
  datatype TopicStatus = Locked | Learning | Mastered

  /** The five screens of the application. */
  datatype AppView = DashboardView | QuizSetupView | QuizSessionView | QuizResultView | MasteryMapView

  /**
   * One generated quiz item. `correctIndex` is an unconstrained number: nothing ties it
   * to the length of `options`, so no range is assumed for it.
   */
  datatype Question = Question(
    id: string,
    text: string,
    options: seq<string>,
    correctIndex: int,
    explanation: string,
    difficulty: Difficulty,
    topicTag: string)

  /** An entry of the recent-activity history. */
  datatype QuizResult = QuizResult(
    totalQuestions: int,
    correctCount: int,
    timestamp: int,
    subject: Subject,
    weakTopics: seq<string>)

  /** What a quiz session emits when it completes, and what the result screen shows. */
  datatype SessionResult = SessionResult(correctCount: int, total: int, failedQuestions: seq<Question>)

  /** `Record<Subject, number>`: one score per subject, total by construction. */
  datatype SubjectScores = SubjectScores(math: int, physics: int, chemistry: int, biology: int)
  {
    function Get(s: Subject): int {
      match s
      case Math => math
      case Physics => physics
      case Chemistry => chemistry
      case Biology => biology
    }

    /** The record spread `{ ...scores, [s]: v }`. */
    function Set(s: Subject, v: int): (r: SubjectScores)
      ensures r.Get(s) == v
      ensures forall t :: t != s ==> r.Get(t) == Get(t)
    {
      match s
      case Math => this.(math := v)
      case Physics => this.(physics := v)
      case Chemistry => this.(chemistry := v)
      case Biology => this.(biology := v)
    }
  }

  datatype UserProgress = UserProgress(
    xp: int,
    level: int,
    streak: int,
    lastLoginDate: string,
    subjectMastery: SubjectScores,
    topicMastery: map<string, TopicStatus>,
    recentActivity: seq<QuizResult>)

  /** A catalog entry. */
  datatype TopicNode = TopicNode(id: string, name: string, subject: Subject, description: string)
}

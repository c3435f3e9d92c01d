/**
 * The view-navigation controller: the top-level application state (current view, quiz
 * context, last result, progress) and the handlers that move it between screens.
 */
module Navigation {
  import opened Wrappers
  import opened Types
  import Constants
  import Progress

  /** What the main area renders for the current state. */
  datatype Screen =
    | DashboardScreen(progress: UserProgress)
    | SessionScreen(subject: Subject, topics: seq<string>)
    | ResultScreen(result: SessionResult, subject: Subject)
    | MapScreen(masteryData: map<string, TopicStatus>)
    | EmptyScreen

  class App {
    var view: AppView
    var progress: UserProgress
    var selectedSubject: Subject
    var selectedTopics: seq<string>
    var lastResult: Option<SessionResult>

    /** The progress record keeps the aggregator's invariants. */
    ghost predicate Valid()
      reads this
    {
      Progress.Valid(progress)
    }

    /**
     * The main area: the dashboard shows the progress record, both quiz views mount the
     * same session for the selected subject and topics, the result view shows the last
     * result (or nothing until one exists) and the map shows the stored topic statuses.
     */
    function Rendered(): (s: Screen)
      reads this
      ensures s.SessionScreen? <==> view == QuizSetupView || view == QuizSessionView
      ensures s.ResultScreen? <==> view == QuizResultView && lastResult.Some?
      ensures s == EmptyScreen <==> view == QuizResultView && lastResult.None?
      ensures s.MapScreen? ==> s.masteryData == progress.topicMastery
      ensures s.SessionScreen? ==> s.subject == selectedSubject && s.topics == selectedTopics
      ensures s.ResultScreen? ==> s.result == lastResult.value && s.subject == selectedSubject
      ensures view == DashboardView ==> s == DashboardScreen(progress)
      ensures view == MasteryMapView ==> s.MapScreen?
    {
      match view
      case DashboardView => DashboardScreen(progress)
      case QuizSetupView => SessionScreen(selectedSubject, selectedTopics)
      case QuizSessionView => SessionScreen(selectedSubject, selectedTopics)
      case QuizResultView => if lastResult.Some? then ResultScreen(lastResult.value, selectedSubject) else EmptyScreen
      case MasteryMapView => MapScreen(progress.topicMastery)
    }

    /** The application starts on the dashboard with the default subject and no topic filter. */
    constructor (today: string)
      ensures view == DashboardView && progress == Constants.InitialProgress(today)
      ensures selectedSubject == Math && selectedTopics == [] && lastResult == None
      ensures Valid()
    {
      view := DashboardView;
      progress := Constants.InitialProgress(today);
      selectedSubject := Math;
      selectedTopics := [];
      lastResult := None;
      Progress.InitialProgressValid(today);
    }

    /** A dashboard intent: with a subject, select it and clear the topic filter; always switch view. */
    method ViewChange(newView: AppView, subject: Option<Subject>)
      modifies this
      ensures view == newView
      ensures subject.Some? ==> selectedSubject == subject.value && selectedTopics == []
      ensures subject.None? ==> selectedSubject == old(selectedSubject) && selectedTopics == old(selectedTopics)
      ensures progress == old(progress) && lastResult == old(lastResult)
    {
      if subject.Some? {
        selectedSubject := subject.value;
        selectedTopics := [];
      }
      view := newView;
    }

    /** Picking a topic on the mastery map starts a session on that topic alone. */
    method TopicSelect(topic: TopicNode)
      modifies this
      ensures selectedSubject == topic.subject && selectedTopics == [topic.name]
      ensures view == QuizSessionView
      ensures Rendered() == SessionScreen(topic.subject, [topic.name])
      ensures progress == old(progress) && lastResult == old(lastResult)
    {
      selectedSubject := topic.subject;
      selectedTopics := [topic.name];
      view := QuizSessionView;
    }

    /** A completed session updates progress, is kept as the last result, and its result screen is shown. */
    method QuizComplete(result: SessionResult, now: int)
      modifies this
      ensures progress == Progress.Complete(old(progress), result, old(selectedSubject), now)
      ensures old(Valid()) && result.correctCount >= 0 ==> Valid()
      ensures lastResult == Some(result) && view == QuizResultView
      ensures Rendered() == ResultScreen(result, selectedSubject)
      ensures selectedSubject == old(selectedSubject) && selectedTopics == old(selectedTopics)
    {
      if Valid() && result.correctCount >= 0 {
        Progress.CompletePreservesValid(progress, result, selectedSubject, now);
      }
      progress := Progress.Complete(progress, result, selectedSubject, now);
      lastResult := Some(result);
      view := QuizResultView;
    }

    /**
     * The inline callbacks that only switch screens: the navbar (dashboard, mastery map),
     * the session's exit, the result screen's home and the mastery map's back button.
     */
    method SetView(newView: AppView)
      modifies this
      ensures view == newView
      ensures selectedSubject == old(selectedSubject) && selectedTopics == old(selectedTopics)
      ensures progress == old(progress) && lastResult == old(lastResult)
    {
      view := newView;
    }

    /** Retrying from the result screen starts a fresh session with the same subject and topics. */
    method Retry()
      modifies this
      ensures view == QuizSessionView
      ensures Rendered() == SessionScreen(old(selectedSubject), old(selectedTopics))
      ensures selectedSubject == old(selectedSubject) && selectedTopics == old(selectedTopics)
      ensures progress == old(progress) && lastResult == old(lastResult)
    {
      view := QuizSessionView;
    }
  }
}

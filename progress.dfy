/**
 * The progress aggregator: the pure update that folds one completed quiz session into
 * the user's progress (the function passed to `setProgress` in `handleQuizComplete`).
 */
module Progress {
  import opened Types
  import opened Constants
  import Seqs

  function Min(a: int, b: int): int {
    if a <= b then a else b
  }

  /** Every subject's mastery lies in [0, 100]. */
  predicate MasteryInRange(m: SubjectScores) {
    forall s: Subject :: 0 <= m.Get(s) <= 100
  }

  /** The invariants the aggregator keeps on a progress record. */
  predicate Valid(p: UserProgress) {
    && p.xp >= 0
    && p.level == p.xp / 500 + 1
    && MasteryInRange(p.subjectMastery)
    && |p.recentActivity| <= 5
  }

  /** The seed record satisfies the invariants, whatever the login date. */
  lemma InitialProgressValid(today: string)
    ensures Valid(InitialProgress(today))
    ensures forall s: Subject :: InitialProgress(today).subjectMastery.Get(s) in {20, 15, 10, 5}
  {
  }

  /** The topic tag of each question, in order. */
  function TopicTags(qs: seq<Question>): (tags: seq<string>)
    ensures |tags| == |qs|
    ensures forall i :: 0 <= i < |qs| ==> tags[i] == qs[i].topicTag
  {
    seq(|qs|, i requires 0 <= i < |qs| => qs[i].topicTag)
  }

  /** `[...new Set(tags)]`: each tag once, in the order of its first occurrence. */
  function Distinct(tags: seq<string>): (r: seq<string>)
    ensures Seqs.NoDup(r)
    ensures forall t :: t in r <==> t in tags
    decreases |tags|
  {
    if |tags| == 0 then []
    else
      var prefix := Distinct(tags[..|tags| - 1]);
      var t := tags[|tags| - 1];
      assert tags == tags[..|tags| - 1] + [t];
      if t in prefix then prefix else prefix + [t]
  }

  /** Distinct tags come out ordered by where each first occurs in the input. */
  lemma {:induction false} DistinctFirstOccurrenceOrder(tags: seq<string>)
    ensures Seqs.OrderedBy(tags, Distinct(tags))
    decreases |tags|
  {
    if |tags| > 0 {
      var n := |tags|;
      var pre, t := tags[..n - 1], tags[n - 1];
      assert tags == pre + [t];
      DistinctFirstOccurrenceOrder(pre);
      Seqs.OrderedByAppend(pre, Distinct(pre), t);
    }
  }

  /** The weak topics of a session: the distinct tags of its failed questions. */
  function WeakTopics(failed: seq<Question>): (tags: seq<string>)
    ensures Seqs.NoDup(tags)
    ensures forall t :: t in tags <==> exists q :: q in failed && q.topicTag == t
  {
    var all := TopicTags(failed);
    assert forall q :: q in failed ==> q.topicTag in all by {
      forall q | q in failed ensures q.topicTag in all {
        var i :| 0 <= i < |failed| && failed[i] == q;
        assert all[i] == q.topicTag;
      }
    }
    Distinct(all)
  }

  /** The mastery bump: `correctCount * 2` points on the quizzed subject, capped at 100. */
  function Bump(m: SubjectScores, subject: Subject, correctCount: int): (r: SubjectScores)
    ensures MasteryInRange(m) ==> MasteryInRange(r)
    ensures MasteryInRange(m) ==> forall s :: m.Get(s) <= r.Get(s)
    ensures forall s :: s != subject ==> r.Get(s) == m.Get(s)
    ensures correctCount <= 0 ==> r == m
  {
    if correctCount > 0 then m.Set(subject, Min(100, m.Get(subject) + correctCount * 2)) else m
  }

  /** Prepends the newest record and keeps the five most recent: `[entry, ...recent.slice(0, 4)]`. */
  function Record(recent: seq<QuizResult>, entry: QuizResult): (r: seq<QuizResult>)
    ensures |r| == Min(|recent| + 1, 5)
    ensures r[0] == entry
    ensures r[1..] == recent[..|r| - 1]
  {
    [entry] + recent[..Min(4, |recent|)]
  }

  /**
   * The progress after completing a session on `subject`. The clock read that stamps the
   * activity record is the parameter `now`.
   */
  function Complete(prev: UserProgress, result: SessionResult, subject: Subject, now: int): UserProgress {
    var earnedXP := result.correctCount * XpPerCorrect;
    var entry := QuizResult(result.total, result.correctCount, now, subject, WeakTopics(result.failedQuestions));
    prev.(
      xp := prev.xp + earnedXP,
      level := (prev.xp + earnedXP) / 500 + 1,
      subjectMastery := Bump(prev.subjectMastery, subject, result.correctCount),
      recentActivity := Record(prev.recentActivity, entry))
  }

  /** XP grows by exactly the reward for the correct answers, and the level follows it. */
  lemma CompleteXp(prev: UserProgress, result: SessionResult, subject: Subject, now: int)
    ensures var next := Complete(prev, result, subject, now);
      && next.xp == prev.xp + result.correctCount * XpPerCorrect
      && (result.correctCount >= 0 ==> next.xp >= prev.xp)
      && next.level == next.xp / XpLevelUpBase + 1
      && (next.xp >= 0 ==> (next.level - 1) * XpLevelUpBase <= next.xp < next.level * XpLevelUpBase)
  {
  }

  /** Mastery moves only on the quizzed subject, and only when something was answered correctly. */
  lemma CompleteMastery(prev: UserProgress, result: SessionResult, subject: Subject, now: int)
    ensures var m, m' := prev.subjectMastery, Complete(prev, result, subject, now).subjectMastery;
      && (result.correctCount > 0 ==> m'.Get(subject) == Min(100, m.Get(subject) + 2 * result.correctCount))
      && (result.correctCount <= 0 ==> m' == m)
      && (forall s :: s != subject ==> m'.Get(s) == m.Get(s))
  {
  }

  /** The new activity record heads the history and describes the session; older entries follow. */
  lemma CompleteActivity(prev: UserProgress, result: SessionResult, subject: Subject, now: int)
    ensures var a, a' := prev.recentActivity, Complete(prev, result, subject, now).recentActivity;
      && |a'| == Min(|a| + 1, 5)
      && a'[0].totalQuestions == result.total
      && a'[0].correctCount == result.correctCount
      && a'[0].timestamp == now
      && a'[0].subject == subject
      && Seqs.NoDup(a'[0].weakTopics)
      && (forall t :: t in a'[0].weakTopics <==> exists q :: q in result.failedQuestions && q.topicTag == t)
      && a'[1..] == a[..|a'| - 1]
  {
  }

  /** Completion leaves the streak, the login date and the topic statuses alone. */
  lemma CompleteFrame(prev: UserProgress, result: SessionResult, subject: Subject, now: int)
    ensures var next := Complete(prev, result, subject, now);
      next.streak == prev.streak && next.lastLoginDate == prev.lastLoginDate
      && next.topicMastery == prev.topicMastery
  {
  }

  /** One completion with a non-negative count keeps every invariant. */
  lemma CompletePreservesValid(prev: UserProgress, result: SessionResult, subject: Subject, now: int)
    requires Valid(prev) && result.correctCount >= 0
    ensures Valid(Complete(prev, result, subject, now))
  {
  }

  /** One completion as the application performs it. */
  datatype Completion = Completion(result: SessionResult, subject: Subject, now: int)

  /** The progress after a series of completions, oldest first. */
  function CompleteAll(p: UserProgress, cs: seq<Completion>): UserProgress
    decreases |cs|
  {
    if |cs| == 0 then p
    else CompleteAll(Complete(p, cs[0].result, cs[0].subject, cs[0].now), cs[1..])
  }

  /** However many sessions complete, the invariants hold and XP never goes down. */
  lemma {:induction false} CompleteAllValid(p: UserProgress, cs: seq<Completion>)
    requires Valid(p)
    requires forall i :: 0 <= i < |cs| ==> cs[i].result.correctCount >= 0
    ensures Valid(CompleteAll(p, cs))
    ensures CompleteAll(p, cs).xp >= p.xp
    decreases |cs|
  {
    if |cs| > 0 {
      var p' := Complete(p, cs[0].result, cs[0].subject, cs[0].now);
      CompletePreservesValid(p, cs[0].result, cs[0].subject, cs[0].now);
      CompleteAllValid(p', cs[1..]);
    }
  }

  /** The history is ordered most recent first. */
  predicate RecentFirst(activity: seq<QuizResult>) {
    forall i :: 0 < i < |activity| ==> activity[i - 1].timestamp >= activity[i].timestamp
  }

  /** A completion stamped no earlier than the newest entry keeps the history ordered. */
  lemma CompleteKeepsRecentFirst(prev: UserProgress, result: SessionResult, subject: Subject, now: int)
    requires RecentFirst(prev.recentActivity)
    requires |prev.recentActivity| > 0 ==> prev.recentActivity[0].timestamp <= now
    ensures RecentFirst(Complete(prev, result, subject, now).recentActivity)
  {
    var a, a' := prev.recentActivity, Complete(prev, result, subject, now).recentActivity;
    forall i | 0 < i < |a'| ensures a'[i - 1].timestamp >= a'[i].timestamp {
      assert a'[i] == a[i - 1];
      if i > 1 {
        assert a'[i - 1] == a[i - 2];
      }
    }
  }

  /** `n` completions of the same session, one after another. */
  function Repeat(c: Completion, n: nat): (cs: seq<Completion>)
    ensures |cs| == n && forall i :: 0 <= i < n ==> cs[i] == c
  {
    seq(n, i => c)
  }

  /** Repeating one session adds its reward once per repetition. */
  lemma {:induction false} RepeatXp(p: UserProgress, c: Completion, n: nat)
    ensures CompleteAll(p, Repeat(c, n)).xp == p.xp + n * c.result.correctCount * XpPerCorrect
    ensures CompleteAll(p, Repeat(c, n)).level == CompleteAll(p, Repeat(c, n)).xp / 500 + 1 || n == 0
    decreases n
  {
    if n > 0 {
      var p' := Complete(p, c.result, c.subject, c.now);
      assert Repeat(c, n)[1..] == Repeat(c, n - 1);
      RepeatXp(p', c, n - 1);
    }
  }

  /** A first math session with two of three right and one miss tagged `X`. */
  lemma FirstMathSession(p: UserProgress, miss: Question, now: int)
    requires p.xp == 0 && p.level == 1 && p.subjectMastery.Get(Math) == 20
    requires miss.topicTag == "X"
    ensures var next := Complete(p, SessionResult(2, 3, [miss]), Math, now);
      && next.xp == 100 && next.level == 1
      && next.subjectMastery.Get(Math) == 24
      && next.recentActivity[0].weakTopics == ["X"]
  {
    var tags := TopicTags([miss]);
    assert tags == ["X"];
    assert tags[..0] == [];
    assert Distinct(tags[..0]) == [];
    assert WeakTopics([miss]) == Distinct(tags) == ["X"];
  }

  /** Nine such sessions from zero: 900 XP, level 2. */
  lemma NineMathSessions(p: UserProgress, c: Completion)
    requires p.xp == 0 && c.result.correctCount == 2
    ensures CompleteAll(p, Repeat(c, 9)).xp == 900
    ensures CompleteAll(p, Repeat(c, 9)).level == 2
  {
    RepeatXp(p, c, 9);
  }

  /** Mastery near the ceiling is capped at 100. */
  lemma MasteryCapped(p: UserProgress, result: SessionResult, now: int)
    requires p.subjectMastery.Get(Physics) == 98 && result.correctCount == 5
    ensures Complete(p, result, Physics, now).subjectMastery.Get(Physics) == 100
  {
  }
}

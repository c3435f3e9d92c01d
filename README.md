# Science-class study app: progress, quiz session and mastery map in Dafny

This project models the state logic of a client-side study app for science-class admission prep.
A student picks a subject or a topic and answers a short generated quiz. The app then scores the
attempt and folds the result into the student's progress: XP, level, per-subject mastery and the
recent-activity history. Rendering and the calls to the question-generating language model are
not part of the model.

The model has five parts:

- **Data model and seed data** (`types.dfy`, `constants.dfy`). The closed enumerations (`Subject`,
  `Difficulty`, `TopicStatus`, `AppView`) and the records `Question`, `QuizResult`,
  `SessionResult`, `UserProgress` and `TopicNode`. `Record<Subject, number>` becomes
  `SubjectScores`, a record with one field per subject, so it is total by construction. The
  constants are the initial progress record, the topic catalog, the subject keys and the two XP
  constants.
- **Progress aggregator** (`progress.dfy`). `Progress.Complete` is the pure update that
  `handleQuizComplete` passes to `setProgress`. The lemmas beside it cover XP and level, the
  capped mastery bump, the distinct weak-topic tags in first-occurrence order, and the
  five-entry history. `Progress.Valid` collects the invariants. Other lemmas show that any
  number of completions keeps them.
- **View-navigation controller** (`navigation.dfy`). The class `Navigation.App` has the fields
  `view`, `progress`, `selectedSubject`, `selectedTopics` and `lastResult`. Its methods are the
  handlers: `ViewChange`, `TopicSelect` and `QuizComplete`. The inline callbacks are `SetView`
  and `Retry`. `Rendered` says which screen the main area shows.
- **Quiz session controller** (`quiz_session.dfy`). The class `Session.QuizSession` has the eight
  state fields of the component. A ghost history `answers` holds the option picked for each
  answered question, and `Valid` ties `score` and `failedQuestions` to the functions `Score` and
  `Failed` over that history. `Load` is the load effect's outcome, `OptionClick` is
  `handleOptionClick` and `Next` is `handleNext`. The predicates `OptionsEnabled`, `NextEnabled`
  and `ExitOffered` are the button guards.
- **Mastery-map display policy** (`mastery_map.dfy`). `Group` is the `reduce` that groups the
  catalog by subject, proved equal to a per-subject filter `OfSubject`. `StoredStatus` and
  `DisplayStatus` give the status a tile shows. `Click` is the selection guard. `RenderedSubjects`
  lists the subjects that get a section, and `Badge` gives a tile's badge text.

`walkthrough.dfy` drives one study round through `App` and `QuizSession` together.

The clock is a parameter wherever the code reads it. `now` stamps the activity record, and
`today` is the initial login date. The question generator is an oracle: `Session.Generation` is
either a batch or a failure.

## Model

| member | source | states |
|---|---|---|
| Constants.SubjectKeysExact | constants.ts:3-8 | The subject keys list each of the four subjects exactly once. |
| Constants.InitialProgress | constants.ts:10-23 | The seed record starts at 0 XP and level 1, with no topic statuses and no history. The login date is the given day. |
| Constants.TopicIdsUnique | constants.ts:26-42 | Catalog ids are pairwise distinct, so catalog entries are pairwise distinct too. |
| Types.SubjectScores.Set | App.tsx:45-48 | Updating one subject's score sets that score and leaves the other three unchanged. |
| Progress.InitialProgressValid | constants.ts:10-23 | The seed record satisfies every aggregator invariant: XP is 0, the level is 1, each mastery is one of 20/15/10/5 and the history is empty. |
| Progress.TopicTags | App.tsx:42 | The tag list has one entry per failed question, in order. |
| Progress.Distinct | App.tsx:42 | The deduplicated tags have no repeats and hold exactly the tags of the input. |
| Progress.DistinctFirstOccurrenceOrder | App.tsx:42 | Deduplicated tags keep the order of their first occurrences. |
| Progress.WeakTopics | App.tsx:42 | Weak topics have no repeats, and each one is the tag of some failed question. Every failed question's tag is among them. |
| Progress.Bump | App.tsx:45-49 | Mastery in [0,100] stays in [0,100] and never decreases. Only the quizzed subject changes, and a count of 0 or less changes nothing. |
| Progress.Record | App.tsx:56-65 | The new entry comes first. The history length becomes min(old+1, 5), and the rest is a prefix of the old history. |
| Progress.CompleteXp | App.tsx:41-54 | XP grows by exactly correctCount × 50 and does not fall when the count is non-negative. The level is xp / XP_LEVEL_UP_BASE + 1, so (level-1)·500 ≤ xp < level·500. |
| Progress.CompleteMastery | App.tsx:45-49 | If correctCount > 0, the quizzed subject's mastery becomes min(100, old + 2·correctCount). Otherwise mastery is unchanged, and other subjects never change. |
| Progress.CompleteActivity | App.tsx:56-65 | The head record carries the session's total, count, subject and timestamp, and its weak topics. The length bound and prefix property hold. |
| Progress.CompleteFrame | App.tsx:51-52 | Completion leaves streak, login date and topic statuses unchanged. |
| Progress.CompletePreservesValid | App.tsx:44-66 | One completion with a non-negative count keeps every invariant. |
| Progress.CompleteAllValid | App.tsx:39-71 | Any sequence of completions with non-negative counts keeps every invariant and never lowers XP. |
| Progress.CompleteKeepsRecentFirst | App.tsx:56-65 | The history stays ordered newest first when each completion is stamped no earlier than the previous one. |
| Progress.RepeatXp | App.tsx:41-54 | Repeating one session n times adds n × correctCount × 50 XP, and the level follows. |
| Progress.FirstMathSession | App.tsx:39-66 | From 0 XP and math mastery 20, a 2-of-3 math session with one miss tagged "X" gives 100 XP, level 1, mastery 24 and weak topics ["X"]. |
| Progress.NineMathSessions | App.tsx:53-54 | Nine sessions with 2 correct each, starting from 0 XP, give 900 XP and level 2. |
| Progress.MasteryCapped | App.tsx:48 | Mastery 98 plus a 5-correct session is capped at 100. |
| Navigation.App.Rendered | App.tsx:112-150 | The dashboard gets the progress record. Both quiz views mount the session for the selected subject and topics. The result view shows the last result with the selected subject, or nothing if there is none. The map gets the stored topic statuses. |
| Navigation.App.constructor | App.tsx:11-15 | The app starts on the dashboard with the seed progress, math selected, no topic filter and no last result. |
| Navigation.App.ViewChange | App.tsx:24-31 | The view always switches. With a subject, that subject is selected and the topic filter is cleared. Without one, subject and filter stay. Progress and the last result are unchanged. |
| Navigation.App.TopicSelect | App.tsx:33-37 | Selects the topic's subject, sets the filter to exactly the topic's name and shows the session for it. Progress is unchanged. |
| Navigation.App.QuizComplete | App.tsx:39-71 | Progress becomes `Complete` of the old progress under the selected subject, and keeps the invariants when the count is non-negative. The result is stored and its screen shown; subject and filter are unchanged. |
| Navigation.App.SetView | App.tsx:91-148 | Navbar, exit, home and back only switch the view. Subject, filter, progress and last result are unchanged. |
| Navigation.App.Retry | App.tsx:140 | Retry shows a new session with the same subject and topic filter, and nothing else changes. |
| Session.Score | components/QuizSession.tsx:46-47 | The score never exceeds the number of answered questions. |
| Session.Failed | components/QuizSession.tsx:48-49 | The failed list is no longer than the answers, and holds only questions already answered. |
| Session.ScorePlusFailed | components/QuizSession.tsx:40-57 | Every answered question is counted in the score or listed as failed, exactly once. |
| Session.Tally | components/QuizSession.tsx:59 | Counting from the answers themselves: total is the batch size, 0 ≤ correct ≤ total and correct + failed = total. |
| Session.EmittedCountDoublesLast | components/QuizSession.tsx:47-59 | The emitted count equals the true count plus one exactly when the last answer is right. |
| Session.AllCorrectScore | components/QuizSession.tsx:46-47 | With every answer right, the score equals the number of answers. |
| Session.AllCorrectOvercounts | components/QuizSession.tsx:59 | With every answer right, the emitted count is the batch size plus one. |
| Session.OneRightAnswerReportsTwo | components/QuizSession.tsx:59 | A one-question quiz answered correctly reports 2 correct. |
| Session.QuizSession.constructor | components/QuizSession.tsx:15-22 | A session starts loading, with no questions, nothing selected or answered, score 0, no failures and no error. |
| Session.QuizSession.Load | components/QuizSession.tsx:24-38 | A batch is stored and the first question shown with a zero score. A failure shows the error panel with its message. Either way loading ends and Next is disabled, and after a failure the options are disabled too. |
| Session.QuizSession.OptionClick | components/QuizSession.tsx:40-51 | A second answer changes nothing. A first answer records the pick. If it is right, the score rises by exactly 1 and the failed list is unchanged. If it is wrong, the question is appended and the score is unchanged. |
| Session.QuizSession.Next | components/QuizSession.tsx:53-61 | Before the last question, advances by one, clears the pick and keeps score and failures. On the last, it changes nothing and emits the count as written, with the batch size and the failed list. That count is the true count plus one when the last answer is right. |
| Session.GuardsExclusive | components/QuizSession.tsx:63-192 | Options and Next are never both enabled. Loading offers no control at all, and the error panel offers only exit. |
| Session.Bookkeeping | components/QuizSession.tsx:40-57 | In every state, score + number of failures = currentIndex + (1 if answered, else 0). |
| MasteryMap.OfSubjectMembers | components/MasteryMap.tsx:14-18 | A subject's list holds exactly the catalog entries of that subject. |
| MasteryMap.Group | components/MasteryMap.tsx:14-18 | The grouping reduce gives each subject the same list as the per-subject filter, and creates no empty groups. |
| MasteryMap.OfSubjectCount | components/MasteryMap.tsx:14-18 | Each entry occurs in its own subject's list as often as in the catalog, and in no other list. |
| MasteryMap.OfSubjectNoDup | components/MasteryMap.tsx:14-18 | Grouping a duplicate-free catalog gives duplicate-free groups. |
| MasteryMap.GroupPartition | components/MasteryMap.tsx:14-18 | In a duplicate-free catalog, each topic sits exactly once in its own group and in no other. |
| MasteryMap.CatalogPartition | components/MasteryMap.tsx:14-18 | Every catalog topic sits exactly once in its own subject's group and in no other. |
| MasteryMap.FirstOfSubject | components/MasteryMap.tsx:14-18 | A group begins with the first catalog entry of its subject. |
| MasteryMap.CatalogGroupHead | constants.ts:26-42 | Each subject has catalog topics. Its group opens with math_num, phy_mec, chem_stoich or bio_cell. |
| MasteryMap.DisplayStatusOverride | components/MasteryMap.tsx:43-45 | A missing status counts as locked. A locked first topic shows as learning, and every other tile shows its stored status. |
| MasteryMap.FirstNeverLocked | components/MasteryMap.tsx:45 | The first topic of a non-empty group never shows as locked. |
| MasteryMap.Click | components/MasteryMap.tsx:50-51 | A click hands the topic to the selection handler exactly when its tile does not show locked. |
| MasteryMap.FreshMapSelectable | components/MasteryMap.tsx:43-51 | With no stored statuses, exactly the first topic of each catalog subject can be selected. |
| MasteryMap.RenderedSubjects | components/MasteryMap.tsx:28-30 | A subject gets a section exactly when it is listed and has topics. |
| MasteryMap.RenderedSubjectsOrder | components/MasteryMap.tsx:28-30 | Sections follow the order of the subject keys. |
| MasteryMap.AllRendered | components/MasteryMap.tsx:28-30 | When every listed subject has topics, each of them gets a section. |
| MasteryMap.CatalogSections | components/MasteryMap.tsx:28-30 | With the catalog, all four subjects get a section, in key order. |
| MasteryMap.ToUpper | components/MasteryMap.tsx:64 | Upper-casing keeps the length and maps each character on its own. |
| MasteryMap.Badge | components/MasteryMap.tsx:64 | A badge exists exactly when the id contains `_`. It is shorter than the id and contains no `_`. |
| MasteryMap.BadgeOfParts | components/MasteryMap.tsx:64 | The id `p_q`, where neither part contains `_`, shows `q` upper-cased. |
| MasteryMap.CatalogBadge | constants.ts:28-41 | Every catalog id splits as `p_q` with a non-empty `q`, and its badge is `q` upper-cased. |
| MasteryMap.MathNumBadge | components/MasteryMap.tsx:64 | The badge of `math_num` is `NUM`. |
| Walkthrough.FallbackQuestion | services/geminiService.ts:78-88 | The fallback question has four options, and its first option is the right one. |
| Walkthrough.FallbackSession | components/QuizSession.tsx:24-61 | A session given the one-question fallback batch, with that question answered right, emits 2 correct of total 1 and no failures. |
| Walkthrough.FallbackRound | components/QuizSession.tsx:40-61 | Quick-start, the one-question fallback batch answered right, then completion: 100 XP and "2 correct of 1" are recorded. |

## Left out

- The question and weakness-analysis calls to the language model (`services/geminiService.ts`): prompts, response parsing and ids. Question generation is an oracle that yields a batch or a failure. The only concrete batch used is the one-question fallback, in the walkthrough.
- The result screen (`components/ResultSummary.tsx`) and the dashboard (`components/Dashboard.tsx`). Their floating-point percentages, the chart and label text are display only. Dashboard intents enter the model as `ViewChange` calls.
- The missing-API-key check and its configuration-error screen: this is environment, not state logic.
- Asynchrony: the load effect is one atomic event. Effect re-runs and a late load that resolves after the user exits are not modelled.
- Session.QuizSession.Load: requires a delivered batch to be non-empty. The code would store an empty batch and fail when rendering it.
- JSX, styling, icons and the floating-point progress bar.
- MasteryMap.ToUpper: upper-cases ASCII letters only; catalog ids are ASCII.
- MasteryMap.DisplayStatus: `indexOf` matches topics by value here, not by reference. Catalog entries are pairwise distinct (`Constants.TopicIdsUnique`), so the two agree on the catalog.
- XP per session is the correct count times 50, so nine 2-correct sessions give 900 XP and level 2 (`Progress.NineMathSessions`); no other reward rule is modelled.
- An empty batch is not turned into a generation failure anywhere in the code; the model leaves that case out through `Session.QuizSession.Load` above.
- Weak topics are more than a set: the code keeps them in first-occurrence order, and the model proves that order (`Progress.DistinctFirstOccurrenceOrder`).

## Findings

| source | as written | input that shows it | evidently intended | confidence | as-written member | corrected member |
|---|---|---|---|---|---|---|
| components/QuizSession.tsx:59 | On the last question, the emitted `correctCount` is `score` plus 1 when the last pick is right. `score` was already raised for that answer at line 47, which must run before Next is enabled (line 192). | A one-question batch, such as the fallback batch, answered correctly: it reports 2 correct out of 1 and earns 100 XP instead of 50. | The emitted count is the score itself, which counts every question once. | high (not executed) | Session.AllCorrectOvercounts | Session.Tally |

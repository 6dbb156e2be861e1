# DSA learning portal — a verified model of its progress and study logic

The DSA learning portal is a React front-end over a hosted Postgres database. For each study topic it offers:

- video tutorials;
- multiple-choice questions (MCQs) and timed quizzes;
- coding problems;
- personal notes.

It records each user's progress per item. This project models in Dafny the parts of the front-end that compute or change something. It proves what each part promises:

- **Topic progress** (hook `useTopicProgress`). Three per-category percentages and an overall one are computed from the topic's items and the user's completion rows. Rounding is exact round-half-up. The overall value is the rounded mean of the rounded percentages of the non-empty categories. The model covers every way a read can end: delivered, an error reply, or a thrown error. MCQ attempts count per distinct MCQ.
- **Schema** (generated `types.ts`). The three closed enumerations, the `Constants` object that lists them, and the row shapes with their nullable flags.
- **One coding problem's card** (`CodingProblem`). The record merge written by `updateProgress`, which keeps "solved implies attempted". The card's local flags follow the same rules.
- **The coding-problem list** (`CodingProblems`):
  - grouping by difficulty in first-occurrence order, written as a loop;
  - the per-problem progress map, built with the last row winning;
  - the local updates of that map after marking;
  - which button is offered.
- **The quiz** (`QuizView`): the answer array, the correct-answer count, the attempt rows and the session row, the submit rule, and the view that follows from the state.
- **A video card** (`VideoTutorial`). The completion table keyed by (user, video): toggling on upserts a row, toggling off deletes it.
- **The video page** (`VideoPlayer`). Extracting the YouTube id from a URL with the pattern `(?:youtube\.com\/watch\?v=|youtu\.be\/)([^&\n?#]+)`, building the embed URL, and the page's completion state.
- **The notes panel** (`UserNotes`):
  - the notes listing, newest first;
  - create, edit and delete;
  - the trimmed-non-empty guard and the dialog reset;
  - the `replace('_', ' ')` display of the topic, which touches only the first underscore.

Conventions:

- The database is a set of `seq` or `map` values. These are handed to functions or held as fields of a component's class.
- Every database reply is modelled as a `Replies.Outcome`:
  - `Answered`: the rows are delivered, or the write is applied;
  - `Refused`: an error reply, with null data;
  - `Threw`: the promise rejects and the `catch` runs.
- The signed-in user is an `Option<Id>`. Timestamps are abstract naturals and fresh ids are parameters.
- Components whose handlers update state are classes. Each handler is a method with `modifies this` and states the whole new state.

Files:

- `wrappers.dfy`, `replies.dfy`, `schema.dfy`: shared types.
- `topic_progress.dfy`, `coding_problem.dfy`, `coding_problems.dfy`, `quiz_view.dfy`, `video_tutorial.dfy`, `video_player.dfy`, `user_notes.dfy`: one module per source file.

## Model

| member | source | states |
|---|---|---|
| Schema.TopicConstantsMatchEnum | src/integrations/supabase/types.ts:371-377 | `Constants.public.Enums.topic_type` (lines 513-520) lists exactly the six topics of the enum, in enum order and without repeats, and every topic is among them |
| Schema.DifficultyConstantsMatchEnum | src/integrations/supabase/types.ts:364 | the three difficulties of the enum are listed in the same order by `Constants` (line 505), distinct, and cover the type |
| Schema.PlatformConstantsMatchEnum | src/integrations/supabase/types.ts:365-370 | the five platforms of the enum are listed in the same order by `Constants` (lines 506-512), distinct, and cover the type |
| Schema.ParseTopic | src/integrations/supabase/types.ts:513-520 | a string parses as a topic exactly when it is one of the listed constants, and the parsed topic's name is that string |
| Schema.ParseDifficulty | src/integrations/supabase/types.ts:505 | a string parses as a difficulty exactly when it is a listed constant, and parsing inverts the name |
| Schema.ParsePlatform | src/integrations/supabase/types.ts:506-512 | a string parses as a platform exactly when it is a listed constant, and parsing inverts the name |
| Schema.TopicRoundTrip | src/integrations/supabase/types.ts:371-377 | every topic's database name parses back to that topic |
| Schema.DifficultyRoundTrip | src/integrations/supabase/types.ts:364 | every difficulty's name parses back to it |
| Schema.PlatformRoundTrip | src/integrations/supabase/types.ts:365-370 | every platform's name parses back to it |
| TopicProgress.RoundHalfUp | src/hooks/useTopicProgress.tsx:85-87 | `Math.round(n/d)` on exact rationals: the result r satisfies r - 1/2 <= n/d < r + 1/2 |
| TopicProgress.Percent | src/hooks/useTopicProgress.tsx:85-87 | 0 when the category is empty, otherwise the integer nearest to 100·done/total with halves rounded up |
| TopicProgress.PercentAtMost100 | src/hooks/useTopicProgress.tsx:85-87 | a category never shows more than 100 when no more items are done than exist |
| TopicProgress.PercentOfAll | src/hooks/useTopicProgress.tsx:85-87 | completing every item of a non-empty category shows exactly 100 |
| TopicProgress.PercentOfNone | src/hooks/useTopicProgress.tsx:85-87 | completing nothing shows 0 |
| TopicProgress.PercentMonotone | src/hooks/useTopicProgress.tsx:85-87 | completing more items never lowers a category's percentage |
| TopicProgress.PercentStrictlyMonotone | src/hooks/useTopicProgress.tsx:85-87 | with at most 100 items, every extra completion raises the percentage |
| TopicProgress.PercentNotStrictAbove100 | src/hooks/useTopicProgress.tsx:85-87 | with 150 items, one and two completions both show 1, so strict growth needs the bound above |
| TopicProgress.Overall | src/hooks/useTopicProgress.tsx:90-99 | `overallProgress`, the rounded mean of the non-empty categories' rounded percentages; no contract of its own, its properties are stated by TopicProgress.OverallIsMeanOfNonEmpty and TopicProgress.OverallBetween |
| TopicProgress.OverallIsMeanOfNonEmpty | src/hooks/useTopicProgress.tsx:90-99 | the overall value is the rounded mean of the already-rounded percentages of just the non-empty categories, in order video, MCQ, coding |
| TopicProgress.OverallBetween | src/hooks/useTopicProgress.tsx:90-99 | when some category is non-empty, the overall value lies between the smallest and the largest non-empty category's percentage; empty categories neither raise nor lower it |
| TopicProgress.MeanBetween | src/hooks/useTopicProgress.tsx:94-98 | rounding a sum of w values in [lo, hi] divided by w stays in [lo, hi] |
| TopicProgress.Compute | src/hooks/useTopicProgress.tsx:85-99 | the three category percentages and the overall value from item and completion counts; no contract of its own, its properties are stated by TopicProgress.ComputeExample, TopicProgress.ComputeWithin100 and TopicProgress.ComputeAllDone |
| TopicProgress.ComputeExample | src/hooks/useTopicProgress.tsx:85-99 | 2 of 4 videos, no MCQs and 1 of 4 problems give 50, 0, 25 and overall 38 (37.5 rounded up) |
| TopicProgress.ComputeWithin100 | src/hooks/useTopicProgress.tsx:85-99 | with no more completions than items in each category, all four results lie in [0, 100] |
| TopicProgress.Select | src/hooks/useTopicProgress.tsx:58-78 | a filtered single-column read returns exactly the non-null column values of the rows the filter keeps, and no more values than rows |
| TopicProgress.TopicIds | src/hooks/useTopicProgress.tsx:34-38 | the ids read for a topic are exactly the ids of the rows whose enum value is named by the topic string |
| TopicProgress.CompletedVideoIds | src/hooks/useTopicProgress.tsx:58-63 | the video ids read are exactly those of this user's rows with `completed = true` whose video is one of the topic's |
| TopicProgress.AttemptedMcqIds | src/hooks/useTopicProgress.tsx:66-70 | the MCQ ids read are exactly those of this user's attempts on the topic's MCQs, correct or not |
| TopicProgress.SolvedProblemIds | src/hooks/useTopicProgress.tsx:73-78 | the problem ids read are exactly those of this user's rows with `solved = true` whose problem is one of the topic's |
| TopicProgress.Effect | src/hooks/useTopicProgress.tsx:23-122 | every run of the effect ends with loading off |
| TopicProgress.NothingFetchedWithoutUserOrTopic | src/hooks/useTopicProgress.tsx:15-27 | without a user or with an empty topic no read happens, the shown progress is kept, and from the initial state it stays all zero |
| TopicProgress.EmptyTopicShortCircuit | src/hooks/useTopicProgress.tsx:44-53 | when the topic has no videos, MCQs or problems, all four values are 0 whatever the completion reads would return |
| TopicProgress.UnknownTopicIsZero | src/hooks/useTopicProgress.tsx:31-53 | a topic string that names no enum value gets an error reply or no items, so all four values are 0 |
| TopicProgress.AnyThrownReadGivesZero | src/hooks/useTopicProgress.tsx:108-115 | a read that throws, in either round, resets all four values to 0 |
| TopicProgress.FailedItemReadCountsZero | src/hooks/useTopicProgress.tsx:40-42 | an error reply to a category's item read leaves `data` null, so that category shows 0 |
| TopicProgress.FailedCompletionReadCountsZero | src/hooks/useTopicProgress.tsx:81-83 | an error reply to a category's completion read counts no completions, so that category shows 0 |
| TopicProgress.SelectDistinct | src/hooks/useTopicProgress.tsx:58-78 | if the kept rows have distinct non-null column values, the read returns no value twice |
| TopicProgress.VideosWithinTotal | src/hooks/useTopicProgress.tsx:81 | with at most one row per (user, video), the completed-video count never exceeds the topic's video count |
| TopicProgress.Tally | src/hooks/useTopicProgress.tsx:81-83 | completions are counted by rows, MCQ attempts through a set of ids; no contract of its own, its properties are stated by TopicProgress.McqsWithinTotal and TopicProgress.RepeatedAttemptCountsOnce |
| TopicProgress.McqsWithinTotal | src/hooks/useTopicProgress.tsx:82 | the distinct attempted MCQ count never exceeds the topic's MCQ count, however many attempts there are |
| TopicProgress.ProblemsWithinTotal | src/hooks/useTopicProgress.tsx:83 | with at most one row per (user, problem), the solved count never exceeds the topic's problem count |
| TopicProgress.ResultsWithin100 | src/hooks/useTopicProgress.tsx:81-99 | with at most one video row and one coding row per (user, item), every value the fetch produces lies in [0, 100], whatever each read returns |
| TopicProgress.AllVideosCounted | src/hooks/useTopicProgress.tsx:58-81 | when the user has a completed row for every video of the topic, the count equals the topic's video count |
| TopicProgress.AllMcqsCounted | src/hooks/useTopicProgress.tsx:66-82 | when the user has attempted every MCQ of the topic, the distinct count equals the topic's MCQ count |
| TopicProgress.AllProblemsCounted | src/hooks/useTopicProgress.tsx:73-83 | when the user has solved every problem of the topic, the count equals the topic's problem count |
| TopicProgress.CompletingEverythingGives100 | src/hooks/useTopicProgress.tsx:81-99 | completing every item of a topic with any items gives overall 100, and 100 in every non-empty category |
| TopicProgress.FetchProgress | src/hooks/useTopicProgress.tsx:29-119 | `fetchProgress` for a present user and topic; no contract of its own, its properties are stated by TopicProgress.FetchAllAnswered, TopicProgress.AnyThrownReadGivesZero, TopicProgress.EmptyTopicShortCircuit and TopicProgress.ResultsWithin100 |
| TopicProgress.FetchAllAnswered | src/hooks/useTopicProgress.tsx:29-106 | when every read is delivered, the fetch is the arithmetic applied to the topic's item counts and the user's completion counts |
| TopicProgress.ComputeAllDone | src/hooks/useTopicProgress.tsx:85-99 | full counts in every category give 100 overall and in each non-empty category |
| TopicProgress.RepeatedAttemptCountsOnce | src/hooks/useTopicProgress.tsx:66-82 | another attempt on an MCQ the user already attempted changes no value: attempts count once per MCQ |
| TopicProgress.NonCountingVideoRowIgnored | src/hooks/useTopicProgress.tsx:58-63 | adding a video row of another user, or one not marked completed, changes no value |
| TopicProgress.NonCountingProblemRowIgnored | src/hooks/useTopicProgress.tsx:73-78 | adding a coding row of another user, or one not marked solved, changes no value |
| CodingProblem.ReadFlags | src/components/CodingProblem.tsx:66-72 | each shown flag is true exactly when a row exists and its flag is `true`; a missing row shows both false |
| CodingProblem.Merged | src/components/CodingProblem.tsx:92-113 | the record written has solved ⇒ attempted; the named flag takes the value; marking solved forces attempted and keeps or fills `attempted_at`; unmarking attempted clears solved and `solved_at`; the other flag keeps its prior value or false; a timestamp becomes "now" only when its own flag is set true |
| CodingProblem.BuildUpdate | src/components/CodingProblem.tsx:92-113 | the imperative construction of `updateData` with in-place field writes yields exactly the merged record, so solved ⇒ attempted |
| CodingProblem.LocalFlags | src/components/CodingProblem.tsx:125-135 | after an upsert without error, the named flag takes the value; setting attempted false also clears solved; setting solved true also sets attempted |
| CodingProblem.LocalMirrorsRecord | src/components/CodingProblem.tsx:92-135 | starting from the stored flags, the local flags equal the written record's flags |
| CodingProblem.UpdateKeepsConsistent | src/components/CodingProblem.tsx:92-121 | if every stored row has solved ⇒ attempted, it still holds after the upsert, whatever was requested |
| CodingProblem.Card.constructor | src/components/CodingProblem.tsx:27-29 | a card starts unattempted, unsolved and loading |
| CodingProblem.Card.Load | src/components/CodingProblem.tsx:45-78 | loading ends; with a user and a successful read the flags are the row's flags or false; otherwise they are kept |
| CodingProblem.Card.UpdateProgress | src/components/CodingProblem.tsx:80-135 | without a user, when the prior read throws, or on a failed write nothing changes; otherwise the (user, problem) row becomes the merged record over the prior row (none on an error reply) and the local flags follow the same rules; the table keeps solved ⇒ attempted |
| CodingProblems.GroupOrder | src/components/CodingProblems.tsx:118-128 | the list of groups never names a difficulty twice |
| CodingProblems.OfDifficulty | src/components/CodingProblems.tsx:118-124 | a group never holds more problems than the list |
| CodingProblems.NoGroupNoProblems | src/components/CodingProblems.tsx:118-124 | a difficulty with no group has no problems |
| CodingProblems.GroupProblems | src/components/CodingProblems.tsx:118-128 | the `reduce` into a dictionary followed by `Object.entries` yields one group per difficulty in first-occurrence order, each holding exactly that difficulty's problems in their original order |
| CodingProblems.OfDifficultyMembers | src/components/CodingProblems.tsx:118-124 | a problem is in a difficulty's group exactly when it is in the list with that difficulty |
| CodingProblems.EachProblemInItsGroup | src/components/CodingProblems.tsx:118-124 | every problem's difficulty has a group, and the problem is in that group and in no other |
| CodingProblems.GroupSizesSum | src/components/CodingProblems.tsx:118-124 | the group sizes add up to the number of problems |
| CodingProblems.FirstIndex | src/components/CodingProblems.tsx:118-128 | the position of the first problem of a difficulty: earlier problems have other difficulties |
| CodingProblems.GroupOrderMembers | src/components/CodingProblems.tsx:118-128 | a difficulty has a group exactly when some problem has it |
| CodingProblems.GroupOrderFirstIndex | src/components/CodingProblems.tsx:118-128 | a difficulty has a group exactly when the index of its first problem lies inside the list |
| CodingProblems.GroupOrderIsFirstOccurrence | src/components/CodingProblems.tsx:118-128 | groups are listed in order of the first occurrence of their difficulty |
| CodingProblems.GroupOrderIncreasing | src/components/CodingProblems.tsx:118-128 | the first occurrences of the listed difficulties strictly increase, by induction over the list |
| CodingProblems.ProgressQuery | src/components/CodingProblems.tsx:37-41 | a row is read exactly when it is the selected columns of a table row of this user (`.eq('user_id')`) whose problem is on the page (`.in('problem_id')`); no more rows than the table |
| CodingProblems.FetchedKeysAreThisUsersRows | src/components/CodingProblems.tsx:37-49 | a problem gets a map entry exactly when the table holds a row of this user for it, and only problems on the page get one: the map holds no other user's progress |
| CodingProblems.LastFor | src/components/CodingProblems.tsx:43-49 | a problem gets a map entry exactly when some row names it |
| CodingProblems.LastIndex | src/components/CodingProblems.tsx:43-49 | the position of the last row naming a problem, or -1 |
| CodingProblems.LastForIsLastRow | src/components/CodingProblems.tsx:43-49 | a problem's entry holds the flags of the last row naming it: later rows overwrite earlier ones |
| CodingProblems.BuildProgressMap | src/components/CodingProblems.tsx:43-49 | the `forEach` loop builds a map with an entry for exactly the returned `problem_id`s, each from the last such row; a null result gives an empty map |
| CodingProblems.Lookup | src/components/CodingProblems.tsx:136 | a problem without an entry reads as neither attempted nor solved |
| CodingProblems.AttemptedLocally | src/components/CodingProblems.tsx:69-72 | the marked problem gets attempted = true and keeps its solved flag; every other entry is unchanged |
| CodingProblems.SolvedLocally | src/components/CodingProblems.tsx:95-98 | the marked problem gets both flags true; every other entry is unchanged |
| CodingProblems.StatusOf | src/components/CodingProblems.tsx:139-155 | the ring shows finished exactly when solved, and in progress exactly when attempted and not solved |
| CodingProblems.ButtonsExclusive | src/components/CodingProblems.tsx:136-199 | "Mark Attempted" and "Mark Solved" are never offered together; a problem without an entry is offered "Mark Attempted" and shows not started |
| CodingProblems.ButtonProgression | src/components/CodingProblems.tsx:54-199 | marking attempted an unsolved problem moves it to "Mark Solved"; marking solved removes both buttons; neither touches another problem |
| CodingProblems.ProblemList.constructor | src/components/CodingProblems.tsx:27 | the list starts with an empty progress map |
| CodingProblems.ProblemList.FetchUserProgress | src/components/CodingProblems.tsx:34-52 | no change without a user, with no problems, or when the read throws; an error reply empties the map; a delivered read builds the map with the last row winning |
| CodingProblems.ProblemList.MarkAsAttempted | src/components/CodingProblems.tsx:54-76 | with a user and a write without error, the map becomes the local attempted update and the parent is told to refresh (`onProgressUpdate()`, line 73, returned as `notified`); otherwise nothing changes and no one is told |
| CodingProblems.ProblemList.MarkAsSolved | src/components/CodingProblems.tsx:78-102 | with a user and a write without error, the map becomes the local solved update and the parent is told to refresh (`onProgressUpdate()`, line 99, returned as `notified`); otherwise nothing changes and no one is told |
| QuizView.CorrectCount | src/components/QuizView.tsx:77-79 | the count of correct answers is between 0 and the number of answers |
| QuizView.CorrectCountIsMatchCount | src/components/QuizView.tsx:77-79 | the `reduce` counts exactly the positions whose answer equals that MCQ's `correct_answer` |
| QuizView.BuildAttempts | src/components/QuizView.tsx:99-104 | one attempt row per MCQ, carrying the user, the MCQ's id and the answer given, with `is_correct` from the same comparison |
| QuizView.AttemptsAgreeWithCount | src/components/QuizView.tsx:77-104 | the number of attempts marked correct equals the correct count |
| QuizView.SessionRecord | src/components/QuizView.tsx:85-96 | the session row records the user, topic and difficulty, `total_questions` = the number of MCQs, `correct_answers` = the matching count (no more than the total), the time limit and the completion time |
| QuizView.AnyEmpty | src/components/QuizView.tsx:205 | true exactly when some answer is the empty string |
| QuizView.Blank | src/components/QuizView.tsx:54-57 | n empty answers |
| QuizView.BlankDisablesSubmit | src/components/QuizView.tsx:54-57 | right after loading, submit (disabled while an answer is empty, line 205) is disabled exactly when there is at least one question |
| QuizView.AnswerEnablesSubmit | src/components/QuizView.tsx:68-72 | after answering position i, submit (line 205) is enabled exactly when that answer and every other one are non-empty |
| QuizView.McqQuery | src/components/QuizView.tsx:48-52 | the MCQs loaded are exactly the table's MCQs of this topic and difficulty |
| QuizView.Quiz.constructor | src/components/QuizView.tsx:31-38 | the quiz starts with no MCQs, no answers, loading, difficulty beginner and a 10-minute limit |
| QuizView.Quiz.FetchMcqs | src/components/QuizView.tsx:40-66 | without a topic nothing changes; otherwise loading ends, and a successful read of a known topic loads its MCQs of the chosen difficulty with one empty answer each |
| QuizView.Quiz.SetDifficulty | src/components/QuizView.tsx:154 | only the difficulty (the state at line 37) changes |
| QuizView.Quiz.SetTimeLimit | src/components/QuizView.tsx:174-182 | only the time limit (the state at line 38) changes, to a slider value in [5, 30] in steps of 5 |
| QuizView.Quiz.HandleAnswerChange | src/components/QuizView.tsx:68-72 | only position i of the answers is replaced; the length and everything else are kept |
| QuizView.Quiz.HandleSubmitQuiz | src/components/QuizView.tsx:74-117 | without a user nothing is sent or changed; otherwise the session row is sent; the attempt rows, one per MCQ, are sent exactly when the session insert does not throw; the quiz counts as completed exactly when neither insert throws, error replies being ignored |
| QuizView.Quiz.View | src/components/QuizView.tsx:128-211 | the screen follows the state: loading, then the questions when a topic is set, MCQs exist and the quiz is not complete; submit is enabled exactly when no answer is empty |
| QuizView.SessionWithinBounds | src/components/QuizView.tsx:85-96 | for any reachable quiz, the session's correct count is at most its question count, and its time limit is a slider value (lines 174-182) |
| VideoTutorial.Upserted | src/components/VideoTutorial.tsx:66-76 | the upsert conflicting on `user_id,video_id` leaves exactly one row for the pair, completed with this timestamp; other rows are unchanged |
| VideoTutorial.Deleted | src/components/VideoTutorial.tsx:77-82 | the delete removes the pair's row and keeps every other row |
| VideoTutorial.Displayed | src/components/VideoTutorial.tsx:41-54 | the card shows completed exactly when the pair's row exists with `completed = true`; a missing row or a null flag shows false |
| VideoTutorial.ToggleThenRead | src/components/VideoTutorial.tsx:62-83 | after toggling on the pair reads as completed; after toggling off it does not |
| VideoTutorial.TogglesAreLocal | src/components/VideoTutorial.tsx:75-82 | neither toggle touches another user's or another video's row |
| VideoTutorial.TogglesIdempotent | src/components/VideoTutorial.tsx:66-82 | toggling on twice is toggling on once, up to the timestamp; toggling off twice is toggling off once |
| VideoTutorial.AfterToggle | src/components/VideoTutorial.tsx:62-98 | the table changes only when the write is applied, and then reads back the requested value |
| VideoTutorial.ShownAfter | src/components/VideoTutorial.tsx:85 | as written: any reply that does not throw sets the checkbox to the requested value, even an error reply |
| VideoTutorial.RefusedWriteMisreported | src/components/VideoTutorial.tsx:66-85 | an error reply to marking completed leaves the checkbox ticked while the table has no row |
| VideoTutorial.ShownAfterChecked | src/components/VideoTutorial.tsx:85 | the checkbox changes only when the write took effect |
| VideoTutorial.CheckedShownMatchesTable | src/components/VideoTutorial.tsx:62-98 | with the error checked, a card that showed the table still shows it after any toggle |
| VideoTutorial.VideoCard.constructor | src/components/VideoTutorial.tsx:27-28 | a card starts unchecked and loading |
| VideoTutorial.VideoCard.CheckVideoProgress | src/components/VideoTutorial.tsx:40-60 | loading ends; without a user or on a thrown read the checkbox is kept; a delivered read shows the table; an error reply shows unchecked; afterwards the checkbox is offered exactly to a signed-in user (line 136) |
| VideoTutorial.VideoCard.OffersCheckbox | src/components/VideoTutorial.tsx:136 | the checkbox is rendered for a signed-in user once loading is over; stated through VideoTutorial.VideoCard.CheckVideoProgress, after which it is offered exactly when a user is signed in |
| VideoTutorial.VideoCard.ToggleCompleted | src/components/VideoTutorial.tsx:62-98 | as written: without a user nothing happens; otherwise the table is written as replied and the checkbox follows the as-written rule |
| VideoTutorial.VideoCard.ToggleCompletedChecked | src/components/VideoTutorial.tsx:62-98 | corrected: the same writes, but the checkbox changes only on success, so a card that mirrored the table still mirrors it |
| VideoPlayer.RunEnd | src/components/VideoPlayer.tsx:70 | the end of the longest run of characters other than `&`, newline, `?` and `#` from a position: the next character is one of those or the end |
| VideoPlayer.FirstMatch | src/components/VideoPlayer.tsx:70-72 | the leftmost position where either prefix starts and an id character follows, or none exactly when there is no such position |
| VideoPlayer.GetVideoId | src/components/VideoPlayer.tsx:69-73 | none exactly when the pattern matches nowhere; otherwise the maximal id run after the leftmost match, non-empty and free of `&`, newline, `?` and `#` |
| VideoPlayer.EmbedUrl | src/components/VideoPlayer.tsx:75-76 | the embed prefix followed by the id when one is found, else the URL unchanged |
| VideoPlayer.FirstMatchDecides | src/components/VideoPlayer.tsx:69-73 | whatever matches first decides the id, because the two prefixes cannot both start at one position |
| VideoPlayer.WatchUrlRoundTrip | src/components/VideoPlayer.tsx:69-76 | the id of `https://www.youtube.com/watch?v=<id>` is `<id>`, and the embed URL is built from it |
| VideoPlayer.ShortUrlRoundTrip | src/components/VideoPlayer.tsx:69-76 | the id of `https://youtu.be/<id>` is `<id>`, and the embed URL is built from it |
| VideoPlayer.IdStopsAtSeparator | src/components/VideoPlayer.tsx:70 | the id ends at the first `&`, newline, `?` or `#` after it |
| VideoPlayer.NoPrefixKeepsUrl | src/components/VideoPlayer.tsx:72-76 | a URL with neither prefix has no id and is embedded as it is |
| VideoPlayer.Player.constructor | src/components/VideoPlayer.tsx:26 | the page starts not completed |
| VideoPlayer.Player.CheckVideoProgress | src/components/VideoPlayer.tsx:33-46 | the state takes the row's `completed` only when a user is present and the read delivers the row; otherwise it is kept |
| VideoPlayer.Player.MarkAsCompleted | src/components/VideoPlayer.tsx:48-67 | with a user and a write without error, the page shows completed and the parent is notified; otherwise nothing changes; after a notified write "Mark as Completed" is no longer offered (line 133) |
| VideoPlayer.Player.OffersMark | src/components/VideoPlayer.tsx:133 | "Mark as Completed" is shown while `isCompleted` is falsy; stated through VideoPlayer.Player.MarkAsCompleted, after which it is not offered |
| UserNotes.LeadEnd | src/components/UserNotes.tsx:62 | the end of the leading whitespace: everything before it is whitespace, and the next character is not |
| UserNotes.TrailStart | src/components/UserNotes.tsx:62 | the start of the trailing whitespace after a position |
| UserNotes.Trim | src/components/UserNotes.tsx:62-88 | the trimmed string is no longer than the original and neither starts nor ends with whitespace |
| UserNotes.TrimIsSlice | src/components/UserNotes.tsx:62 | trimming removes exactly a whitespace prefix and a whitespace suffix |
| UserNotes.TrimEmptyIffBlank | src/components/UserNotes.tsx:62 | the trimmed string is empty exactly when the original is all whitespace |
| UserNotes.TrimIdempotent | src/components/UserNotes.tsx:62 | trimming twice is trimming once |
| UserNotes.DisplayTopic | src/components/UserNotes.tsx:166 | `topic.replace('_', ' ')`, shown here and at line 182, keeps the length |
| UserNotes.DisplayTopicWithoutUnderscore | src/components/UserNotes.tsx:166 | a topic without `_` is shown as it is |
| UserNotes.DisplayTopicReplacesFirst | src/components/UserNotes.tsx:166 | only the first `_` becomes a space; everything after it is kept |
| UserNotes.DisplayTopicSecondUnderscoreStays | src/components/UserNotes.tsx:166 | `a_b_c` is shown as `a b_c` |
| UserNotes.NotesOf | src/components/UserNotes.tsx:46-49 | the notes read are exactly the store's notes of this topic and user |
| UserNotes.InsertByUpdated | src/components/UserNotes.tsx:50 | inserting into a newest-first list keeps it newest first and adds exactly that note |
| UserNotes.SortNewestFirst | src/components/UserNotes.tsx:50 | the result is ordered by `updated_at` descending and is a permutation of the input |
| UserNotes.Listing | src/components/UserNotes.tsx:42-59 | the listing is newest first and a permutation of this topic's notes for the user |
| UserNotes.ListingIsTheTopicsNotes | src/components/UserNotes.tsx:46-51 | a note is listed exactly when it belongs to this topic and user, and the listing has as many entries as the filtered read |
| UserNotes.UpdatedNotes | src/components/UserNotes.tsx:66-74 | the update changes title and content of the note with that id and of no other |
| UserNotes.DeletedNotes | src/components/UserNotes.tsx:127-130 | the delete removes the note with that id and keeps every other |
| UserNotes.SavedStore | src/components/UserNotes.tsx:64-98 | a failed write changes nothing; editing updates the edited note with the trimmed text; creating appends one note with the trimmed text, topic and user, unless the id is taken |
| UserNotes.CreatedNoteListed | src/components/UserNotes.tsx:84-91 | a created note appears in its topic's listing, trimmed |
| UserNotes.DeletedNoteUnlisted | src/components/UserNotes.tsx:127-130 | after a delete, a note is listed exactly when it was listed before and has another id |
| UserNotes.EditKeepsIdentity | src/components/UserNotes.tsx:66-74 | an edit keeps every note's id, topic, user and timestamps |
| UserNotes.AfterRead | src/components/UserNotes.tsx:42-59 | a delivered read shows the listing; an error reply shows no notes; a thrown read keeps what was shown |
| UserNotes.ButtonMatchesGuard | src/components/UserNotes.tsx:62 | whenever a signed-in user can press the save button (disabled by the rule at line 210), the save goes ahead; a blank title disables both |
| UserNotes.NotesPanel.constructor | src/components/UserNotes.tsx:30-36 | the panel starts with no notes, loading, the dialog closed, nothing being edited and empty fields |
| UserNotes.NotesPanel.FetchNotes | src/components/UserNotes.tsx:38-59 | without a user nothing changes; otherwise loading ends and the notes follow the reply |
| UserNotes.NotesPanel.SetTitle | src/components/UserNotes.tsx:191 | only the title field changes |
| UserNotes.NotesPanel.SetContent | src/components/UserNotes.tsx:200 | only the content field changes |
| UserNotes.NotesPanel.HandleSaveNote | src/components/UserNotes.tsx:61-116 | without a user or with a blank trimmed title or content nothing changes; a failed write changes nothing but the saving flag; a successful save stores the note, closes the dialog, clears the fields and the edited note, and re-reads the listing |
| UserNotes.NotesPanel.HandleEditNote | src/components/UserNotes.tsx:118-123 | the note becomes the one being edited, its title and content fill the fields, and the dialog opens |
| UserNotes.NotesPanel.HandleDeleteNote | src/components/UserNotes.tsx:125-147 | a successful delete removes exactly that note and, with a user signed in, re-reads the listing; a failed delete, or one with no user, leaves the listing and the loading flag as they were |
| UserNotes.NotesPanel.OpenNewNoteDialog | src/components/UserNotes.tsx:149-154 | no note is being edited, the fields are clear and the dialog opens |

## Left out

- Rendering, colours, icons, tabs, toasts, `window.open`, `window.location.reload` and `toLocaleDateString`: presentation only. `TopicCard.tsx`, `Dashboard.tsx`, `TopicCardWithProgress.tsx`, `CheatSheet.tsx`, `TopicView.tsx` and `MCQ.tsx` are not part of this model. The authentication context is not part of this model either: the user arrives as an `Option<Id>`.
- React effect scheduling, `async`/`await`, `Promise.all` and re-render timing. Each handler runs to completion as one method call. The code has no guard against a stale reply, so none is modelled.
- The network and the database client. Each reply's outcome is a parameter and the tables are values. Row order in a reply is the table's order, except where the query orders it.
- Clocks and id generation. "Now" and fresh note ids are parameters. Timestamps are naturals compared by `<=`, as the ISO strings compare.
- TopicProgress.RoundHalfUp: exact rational round-half-up. It does not reproduce IEEE-754 rounding of `(c / t) * 100`, which can land just below an exact half.
- Quiz `score` (`src/components/QuizView.tsx:81`): a floating-point percentage, left out. The session row carries no score.
- The database-side effect of the upserts in `CodingProblems.tsx` (lines 57-64 and 81-90) and in `VideoPlayer.tsx` (lines 52-59). They give no `onConflict`, so their key is not determined by the code. Only the local map and state updates are modelled.
- Any database trigger that maintains `updated_at`. An edit keeps the note's timestamps.
- UserNotes.SortNewestFirst: the database's order among notes with equal `updated_at` is not determined, so the model fixes an insertion order for ties. The contract states only "newest first and a permutation".
- UserNotes.NotesPanel.HandleSaveNote: the refetch at line 105 is not awaited. The model runs it before `saving` is cleared.
- CodingProblems.ProblemList.MarkAsAttempted and CodingProblems.ProblemList.MarkAsSolved: an error reply and a thrown error are merged into one `writeOk` flag. Both leave the map unchanged and the parent unnotified in the code.
- VideoPlayer.Player.MarkAsCompleted: the same merge into one `writeOk` flag. An error reply and a rejected upsert both leave the page unchanged and the parent unnotified in the code.
- QuizView.Quiz.FetchMcqs: the same merge into one `readOk` flag. An error reply (`data` null) and a thrown read both keep the MCQs, and `loading` is cleared either way.
- CodingProblem.Card.Load and the write of CodingProblem.Card.UpdateProgress: the same merge of error reply and thrown error into one flag. Both reach the same `catch` in the code.
- QuizView.Quiz.HandleAnswerChange: requires the index to be one of the rendered questions. Only those inputs exist on the page.
- QuizView.Quiz.SetTimeLimit: requires a slider value. The slider produces nothing else.
- The difficulty and topic states of QuizView, and CodingProblems.Problem.difficulty (the grouping key), hold strings in the code. The model holds the `difficulty_level` enum, and the topic as a string that is parsed where it is cast to `topic_type`.
- The type-level helpers `Tables`, `TablesInsert`, `TablesUpdate`, `Enums` and `CompositeTypes` (`types.ts` lines 385-500): TypeScript typing only.
- The MCQ tab shows five questions while progress counts all of a topic's MCQs. `MCQ.tsx` and `TopicView.tsx` are not part of this model, so the two numbers are not reconciled.

## Findings

| source | as written | input that shows it | evidently intended | confidence | as-written member | corrected member |
|---|---|---|---|---|---|---|
| src/components/VideoTutorial.tsx:85 | `setIsCompleted(completed)` runs after any reply that does not throw; the upsert's and the delete's `error` fields are never inspected | an empty progress table, a signed-in user ticking the box, and the upsert answered with an error reply: the box shows ticked but no row exists, and the next load shows it unticked | change the checkbox only when the write succeeded | not executed | VideoTutorial.RefusedWriteMisreported (over VideoTutorial.ShownAfter and VideoTutorial.VideoCard.ToggleCompleted) | VideoTutorial.VideoCard.ToggleCompletedChecked (over VideoTutorial.ShownAfterChecked, proved by VideoTutorial.CheckedShownMatchesTable) |

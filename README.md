# GATE CSE practice platform: a Dafny model of the exam engine

This project models the deterministic core of a practice platform for the GATE computer
science exam and proves properties about it.

- **Exam server.** The server keeps a read-only question bank and a map of generated tests.
  - Assembling a test filters the bank by subject, topic, difficulty and question type, shuffles the matching pool and keeps a prefix of it.
  - Evaluating a test grades every question with per-type string rules.
  - It then sums the marks, classifies topics as strong (at least 70%) or weak (below 50%), and builds a difficulty breakdown and a subject breakdown.
- **Browser client.** The client folds each test result into a progress record kept in local storage: a test history, totals, an overall accuracy, and per-topic and per-subject mastery. It also parses the replies of an AI assistant.
- **Pages and data script.** The quiz page navigates between questions, flags them and times the answers. The practice page builds and validates a test configuration. The video page filters a video list. A data script turns YouTube playlists into a video catalogue.

## How the model is organised

- `wrappers.dfy` (`Wrappers`): `Option` and `Result`.
- `numeric.dfy` (`Numeric`): exact percentages and means over `real`.
- `text.dfy` (`Text`): ASCII string helpers.
  - Lowercasing and trimming; JavaScript `split` on one character; whitespace-separated words.
  - JavaScript `parseInt` (sign, `0x` prefix, `NaN` as `None`); decimal printing and `padStart(2, "0")`.
- `seqs.dfy` (`Seqs`): order-preserving filtering, `slice(0, n)`, and index permutations with their multiset lemma.
- `schema.dfy` (`Schema`): the shared record types, the two enums and the configuration validity predicate.
- `bank.dfy` (`QuestionBank`): the question filter rule.
- `grading.dfy` (`Grading`): `isAnswerCorrect`.
- `tally.dfy` (`Tallies`): the per-key counting maps (`topicPerformance`, `subjectPerformance`, `topicMap`).
  - They are modelled as sequences of `(key, correct, total)` in first-insertion order, which is the iteration order of a JavaScript `Map`.
- `evaluation.dfy` (`Evaluation`): `evaluateTest` as one function `Evaluate`, with its properties.
- `storage.dfy` (`Storage`): class `MemStorage` with the `tests` map.
  - `GenerateTest` and `EvaluateTest` are methods.
  - The loops of the evaluation are methods proved equal to the functions of `Evaluation`.
- `progress.dfy` (`ProgressTracker`): `getProgress` and `updateProgress`.
  - `ProgressStore.UpdateProgress` is the method; `Updated` is the function it is proved against.
  - `MergeTopicRecords` and `MergeSubjectRecords` are the loops.
- `ai_replies.dfy` (`AiReplies`): the two reply parsers. The reply is an input: `None` means the AI call threw.
- `quiz.dfy` (`Quiz`): class `QuizSession` and `formatTime`. Clock readings are parameters.
- `practice.dfy` (`Practice`): the list toggles and class `PracticeForm`.
- `videos.dfy` (`VideoLibrary`): the video page filter.
- `catalog.dfy` (`VideoCatalog`): the data script's `guess_topic`, id prefix, counters and duration strings.
  - The catalogue loop is the method `BuildCatalog`, with `AppendPlaylist` as its inner loop.

Modelling choices:

- **Injected inputs.** These arrive as parameters:
  - the randomness of the shuffle, as the order `perm` it produced;
  - the fresh test id;
  - every clock reading.
- **Exact arithmetic.** Percentages are exact rationals. A threshold such as "accuracy >= 70" is proved equivalent to `10 * correct >= 7 * total`.
- **Behaviour of the code worth noting:**
  - With no answer submitted, a short-answer question is judged correct, because the empty string is contained in every canonical answer. A test submitted with no answers therefore still scores its short-answer questions (`Evaluation.NoAnswersSubmitted`).
  - A long-answer question whose canonical answer has no word longer than three characters accepts every answer (`Grading.NoKeywordsAcceptsAll`).
  - The title clean-up `re.sub(r'\|.*', '', title)` removes text from a `|` only to the end of its line, because `.` does not match a line feed. `VideoCatalog.CutKeepsNextLine` states that the following lines are kept, and `VideoCatalog.CutAtFirstBar` states the "everything after the first bar" reading for one-line titles.
  - The video recommendation fallback refers to an undefined variable, `weekTopics`, so it throws instead of returning a list. It is modelled as producing no list (`None`).

## Model

| member | source | states |
|---|---|---|
| QuestionBank.FilterBank | server/storage.ts:62-100 | the kept questions are exactly the bank's questions passing every present, non-empty criterion, in bank order (a subsequence) |
| QuestionBank.FilterBankCounts | server/storage.ts:62-100 | a kept question comes back as many times as it occurs in the bank, and a rejected one never |
| QuestionBank.NoCriteriaKeepsAll | server/storage.ts:68-99 | with every criterion absent or empty the whole bank is returned unchanged |
| QuestionBank.OwnAttributesMatch | server/storage.ts:70-96 | a question passes the filter built from its own subject, topic, difficulty and type |
| QuestionBank.SingleSpacedNormalization | server/storage.ts:71-73 | for single-spaced names, collapsing whitespace runs to `_` agrees with replacing each space by `_` |
| Text.CollapseWhitespace | server/storage.ts:71 | `replace(/\s+/g, "_")` leaves no whitespace |
| Text.CollapseRun | server/storage.ts:71 | a whole run of whitespace, however long, becomes a single `_` |
| Storage.MemStorage.GetQuestionsByFilters | server/storage.ts:62-100 | the store's filter: membership iff the question passes the criteria, result is a subsequence of the bank |
| Storage.MemStorage.GetVideosBySubject | server/storage.ts:281-286 | a video is returned iff its lowercased subject and the query contain one another; order is kept |
| Storage.MemStorage.GetVideosByTopic | server/storage.ts:288-293 | a video is returned iff its lowercased topic and the query contain one another; order is kept |
| Storage.VideosMatchingSubject | server/storage.ts:281-286 | every returned video is from the list and matches by symmetric lowercase containment, and every matching video is returned |
| Storage.VideosMatchingTopic | server/storage.ts:288-293 | the same rule for topics |
| Storage.OwnVideoIsFound | server/storage.ts:281-293 | each video is found by its own subject and by its own topic |
| Storage.MemStorage.GenerateTest | server/storage.ts:102-129 | fails iff the filtered pool is empty, storing nothing; otherwise the test holds the first min(numQuestions, pool size) questions of the shuffled pool, a sub-multiset of the pool, each from the bank and matching the criteria; it is stored under the fresh id; the bank, the videos and every other test are unchanged |
| Storage.MemStorage.EvaluateTest | server/storage.ts:131-248 | fails iff no test is stored under the id; otherwise returns `Evaluate` of that test |
| Storage.GradeQuestions | server/storage.ts:137-166 | the grading loop produces `GradeAll` of the questions and the running sums `TotalMarks` and `MarksObtained` |
| Storage.ClassifyTopics | server/storage.ts:181-190 | the `forEach` yields exactly `StrongTopics` and `WeakTopics` of the topic tally |
| Storage.CountByDifficulty | server/storage.ts:193-205 | the difficulty loop yields `CountDifficulty` of the results |
| Tallies.CountPerformance | server/storage.ts:169-178 | the map-building loop yields `TallyOf` the results |
| Tallies.TallyCounts | server/storage.ts:169-178 | a key has an entry iff some result carries it, keys are distinct, and each entry holds exactly the number of results of that key and of correct ones |
| Tallies.TallySums | server/storage.ts:208-217 | the entries' totals add up to the number of results, their correct counts to the number of correct results |
| Tallies.CorrectAtMostCount | server/storage.ts:176-177 | a key's correct count never exceeds its count |
| Evaluation.AnswerMapDomain | server/storage.ts:142 | the answer map has an id iff some submitted answer carries it, and its entry is one of those answers |
| Evaluation.AnswerMapLastWins | server/storage.ts:142 | for repeated ids the last submitted answer is the one kept |
| Evaluation.GradeAll | server/storage.ts:145-166 | one result per question, each the grade of that question |
| Evaluation.EvaluateResults | server/storage.ts:145-232 | one result per test question, in test order, and `total_questions` is their number |
| Evaluation.EvaluateUnanswered | server/storage.ts:146-164 | a question with no answer is graded as "" with time 0 |
| Evaluation.EvaluateUsesLastAnswer | server/storage.ts:142-164 | a question is graded from the last answer submitted for its id, with that answer's time |
| Evaluation.StrayAnswerCountsTime | server/storage.ts:227 | an answer for an id outside the test changes no result but its time is still added to the total |
| Evaluation.TotalTimeAppend | server/storage.ts:227 | `total_time` adds every submitted answer's time |
| Evaluation.MarksAppend | server/storage.ts:152-155 | each graded question adds its marks to the total and its awarded marks to the obtained sum |
| Evaluation.MarksBounds | server/storage.ts:152-155 | with non-negative marks, 0 <= obtained <= total, with equality when every result is correct |
| Evaluation.ScoreRange | server/storage.ts:235 | the score is a percentage, 0 when there are no marks, and 100 exactly when all marks are obtained |
| Evaluation.AccuracyRange | server/storage.ts:236-238 | accuracy is a percentage, 0 with no results, 100 exactly when every result is correct |
| Evaluation.CorrectCountBounds | server/storage.ts:237 | the correct count is at most the number of results, equal exactly when all are correct |
| Evaluation.EvaluateMarks | server/storage.ts:152-238 | for a whole evaluation: marks within bounds, score and accuracy percentages, the zero cases, and 100% accuracy exactly when all correct |
| Evaluation.StrongMembers | server/storage.ts:183-190 | a topic is listed strong iff its entry is at 70% or more |
| Evaluation.WeakMembers | server/storage.ts:183-190 | a topic is listed weak iff its entry is not strong and below 50% |
| Evaluation.ClassifiedDistinct | server/storage.ts:183-190 | with distinct tally keys neither list repeats a topic |
| Evaluation.TopicClassification | server/storage.ts:169-190 | strong iff 10*correct >= 7*count, weak iff 2*correct < count, over the topic's results; the lists are disjoint and duplicate-free |
| Evaluation.DifficultyBuckets | server/storage.ts:193-205 | each bucket counts the results of its difficulty, the buckets add up to all results and all correct ones, and correct <= total in each |
| Evaluation.SubjectScoresCount | server/storage.ts:207-224 | each subject entry appears once with its exact counts, at least one question, correct <= total, its percentage, and the totals add up to the number of results |
| Evaluation.EvaluateBreakdowns | server/storage.ts:193-224 | for a whole evaluation both breakdowns partition the questions with correct <= total, and subjects appear once |
| Evaluation.VerbatimAnswersScoreFully | server/storage.ts:145-238 | answering every question with its canonical answer makes all results correct, earns all marks and gives 100% accuracy |
| Evaluation.UnansweredGrade | server/storage.ts:146-151 | an unanswered question is graded as "" with time 0: wrong for a choice or fill-in question with a non-blank answer, correct for a short answer |
| Evaluation.NoAnswersSubmitted | server/storage.ts:145-227 | with no answers every result is blank with time 0 and total time 0; blank choice/fill-in answers are wrong but blank short answers are correct |
| Evaluation.GradeAllIgnoresOtherIds | server/storage.ts:146 | grading reads only the answers for the test's own ids |
| Grading.VerbatimIsCorrect | server/storage.ts:250-275 | the canonical answer is judged correct for every question type |
| Grading.ExactKinds | server/storage.ts:254-257 | choice and fill-in answers are correct iff they equal the canonical answer after lowercasing and trimming |
| Grading.BlankExactAnswerIsWrong | server/storage.ts:254-257 | a blank choice or fill-in answer is wrong against a non-blank canonical answer |
| Grading.EmptyShortAnswerIsCorrect | server/storage.ts:260-264 | a blank short answer is contained in the canonical one and so is judged correct |
| Grading.LongAnswerRule | server/storage.ts:268-272 | the long-answer rule is exactly 2 * matched keywords >= keywords |
| Grading.NoKeywordsAcceptsAll | server/storage.ts:268-272 | a canonical answer without words longer than three characters accepts every answer |
| Seqs.PermuteMultiset | server/storage.ts:116 | permuting the pool by an index permutation keeps its multiset |
| Schema.ParseQuestionType | shared/schema.ts:22 | the type enum accepts exactly "MCQ", "short_answer", "long_answer", "fill_in_blank", each naming its value |
| Schema.ParseDifficulty | shared/schema.ts:23 | the difficulty enum accepts exactly "easy", "medium", "hard", each naming its value |
| Schema.EnumNamesRoundTrip | shared/schema.ts:22-23 | every enum value's wire name parses back to it |
| Practice.StartAcceptsValidConfigs | shared/schema.ts:60-66 | the practice form accepts exactly the configurations the schema calls valid: at least one subject and 1 to 100 questions |
| ProgressTracker.ProgressStore.GetProgress | client/src/lib/api.ts:147-162 | the stored record, or the default record when nothing is stored |
| ProgressTracker.DefaultProgress | client/src/lib/api.ts:152-161 | zero totals and accuracy, empty history, topic and subject lists, both stamps `now` |
| ProgressTracker.DefaultIsConsistent | client/src/lib/api.ts:152-161 | the default record satisfies the record invariant |
| ProgressTracker.ProgressStore.UpdateProgress | client/src/lib/api.ts:164-237 | stores and returns `Updated` of the current record |
| ProgressTracker.UpdateHistoryAndTotals | client/src/lib/api.ts:167-234 | exactly one history entry is appended with the result's id, date, score and accuracy, earlier entries unchanged; totalTests +1, totalQuestions + the result's count; updatedAt is `now` |
| ProgressTracker.DatePartOfTimestamp | client/src/lib/api.ts:170 | the date of an ISO timestamp is the text before its `T` |
| ProgressTracker.OverallAccuracyAppend | client/src/lib/api.ts:180-183 | the mean of the history after one more test is the incremental unweighted mean |
| ProgressTracker.TwoTestsAverage | client/src/lib/api.ts:180-183 | tests at 80% and 60% average 70% regardless of question counts |
| ProgressTracker.UpdateOverallAccuracy | client/src/lib/api.ts:179-183 | overall accuracy becomes the result's accuracy after the first test, otherwise the count-weighted running mean |
| ProgressTracker.MergeTopicRecords | client/src/lib/api.ts:198-215 | the merge loop over `topicMap` yields `MergeTopics` |
| ProgressTracker.TopicMasteryKeeps | client/src/lib/api.ts:186-204 | an existing topic gains exactly this test's attempts and correct answers, its accuracy is recomputed from the sums and it is stamped; other topics are untouched |
| ProgressTracker.TopicMasteryAdds | client/src/lib/api.ts:186-215 | the topics afterwards are the old ones plus the result's; each new topic is appended once, after the old ones, with its counts, percentage, the subject of its first result and the stamp |
| ProgressTracker.MergeTopicsTopics | client/src/lib/api.ts:198-215 | the merge keeps old topics in place and appends exactly the tally's new topics |
| ProgressTracker.MergeTopicsDistinct | client/src/lib/api.ts:198-215 | the merge never lists a topic twice |
| ProgressTracker.MergeSubjectRecords | client/src/lib/api.ts:218-232 | the loop over `subject_breakdown` yields `MergeSubjects` |
| ProgressTracker.MergeSubjectsOld | client/src/lib/api.ts:218-223 | an existing subject adds the breakdown's total and correct and recomputes accuracy from the sums; other subjects are untouched |
| ProgressTracker.MergeSubjectsNew | client/src/lib/api.ts:224-231 | a new subject is appended with the breakdown's counts and its own percentage |
| ProgressTracker.MergeSubjectsSubjects | client/src/lib/api.ts:218-232 | old subjects stay in place and exactly the new ones are appended |
| ProgressTracker.MergeSubjectsDistinct | client/src/lib/api.ts:218-232 | the loop never lists a subject twice |
| ProgressTracker.MergeTopicsSound | client/src/lib/api.ts:198-215 | merging keeps correct <= attempts for every topic record |
| ProgressTracker.MergeSubjectsSound | client/src/lib/api.ts:218-232 | merging a sound breakdown keeps correct <= total for every subject record |
| ProgressTracker.UpdateKeepsConsistent | client/src/lib/api.ts:164-237 | an update keeps the record invariant: one history entry per test, accuracy the history mean, distinct topics and subjects, correct <= attempts |
| ProgressTracker.EvaluatedResultIsSound | client/src/lib/api.ts:218-232 | every result the evaluator builds has a sound, duplicate-free subject breakdown, so it can be folded in |
| AiReplies.ParseVerdict | client/src/lib/api.ts:111-126 | a failed call gives "incorrect, score 0" with the fallback text; otherwise the score is `parseInt` of field 0 or 0, a score of 70 or more is correct, and feedback is never empty |
| AiReplies.WellFormedVerdict | client/src/lib/api.ts:112-118 | a `n|c|f` reply reads as score n, correct iff c contains "yes" in any case or n >= 70, feedback f or the default when f is empty |
| AiReplies.LeadingScore | client/src/lib/api.ts:114 | the score is the reply's leading decimal number |
| AiReplies.ScoreOnlyVerdict | client/src/lib/api.ts:115-116 | a reply without separators is correct only by its score and gets the default feedback |
| AiReplies.RecommendedTopics | client/src/lib/api.ts:136-141 | at most three non-blank single lines; no list at all when the call fails |
| AiReplies.LinesRecommended | client/src/lib/api.ts:137 | a reply of non-blank lines gives its first three lines in order |
| AiReplies.NonBlankLinesRecommended | client/src/lib/api.ts:137 | for any reply, given as its lines, the blank lines are skipped and the first three remaining lines are kept, in order |
| Text.ParseIntDecimal | client/src/lib/api.ts:114 | `parseInt` reads back a decimal number followed by a non-digit |
| Text.ParseIntNegative | client/src/pages/practice.tsx:189 | `parseInt` reads a minus sign and a decimal number back as the negated value |
| Quiz.QuizSession.constructor | client/src/pages/quiz.tsx:30-35 | a fresh session is on question 0 with no answers and no flags, opened at `now` |
| Quiz.QuizSession.HandleAnswer | client/src/pages/quiz.tsx:76-92 | only the current question's entry changes: the value, with the previous time (or 0) plus the whole seconds since it was opened; the clock restarts; without a current question nothing changes |
| Quiz.ElapsedSeconds | client/src/pages/quiz.tsx:79 | the whole seconds elapsed, rounded down |
| Quiz.QuizSession.HandleNext | client/src/pages/quiz.tsx:94-99 | moves forward and restarts the clock only below the last index; the index stays in range |
| Quiz.QuizSession.HandlePrevious | client/src/pages/quiz.tsx:101-106 | moves back and restarts the clock only above index 0 |
| Quiz.QuizSession.HandleToggleFlag | client/src/pages/quiz.tsx:108-119 | flips the current question's flag and nothing else |
| Quiz.FlipFlag | client/src/pages/quiz.tsx:110-118 | the toggled id's membership flips and every other id's is kept |
| Quiz.FlipFlagTwice | client/src/pages/quiz.tsx:108-119 | toggling twice restores the flag set |
| Quiz.QuizSession.JumpTo | client/src/pages/quiz.tsx:305-308 | a navigator click moves to that question and restarts the clock |
| Quiz.FormatTimeReadsBack | client/src/pages/quiz.tsx:134-138 | the clock text splits at `:` into minutes and two-digit seconds below 60 that read back to the input |
| Quiz.TwoDigitSeconds | client/src/pages/quiz.tsx:137 | seconds below 60 are padded to exactly two digits with their value |
| Practice.Toggle | client/src/pages/practice.tsx:45-68 | an absent entry is appended at the end, a present one removed, all others kept |
| Practice.ToggleTwice | client/src/pages/practice.tsx:45-68 | toggling an absent entry twice restores the list exactly |
| Practice.ToggleKeepsDistinct | client/src/pages/practice.tsx:45-68 | toggling keeps a duplicate-free list duplicate-free |
| Practice.PracticeForm.constructor | client/src/pages/practice.tsx:39-43 | the form starts with no subject, 10 questions, medium difficulty and choice questions |
| Practice.PracticeForm.HandleSubjectToggle | client/src/pages/practice.tsx:45-52 | toggles the subject and blanks the subjects message |
| Practice.PracticeForm.HandleDifficultyToggle | client/src/pages/practice.tsx:54-60 | toggles the difficulty, nothing else changes |
| Practice.PracticeForm.HandleTypeToggle | client/src/pages/practice.tsx:62-68 | toggles the type, nothing else changes |
| Practice.StartErrors | client/src/pages/practice.tsx:71-79 | a subjects message iff no subject is selected, a count message iff the count is outside 1 to 100, nothing else |
| Practice.PracticeForm.HandleStartTest | client/src/pages/practice.tsx:70-96 | with any error exactly those errors are shown and nothing is stored; otherwise the selections are stored verbatim as the configuration and the page moves to the quiz |
| Practice.CountFromInput | client/src/pages/practice.tsx:189 | the count is never 0; an unreadable entry and any entry read as 0 ("00", " 0", "-0") give 1; any other parsed value, a negative one included, is kept |
| Practice.CountOfDecimal | client/src/pages/practice.tsx:189 | a typed non-negative decimal is taken as it is, except that 0 becomes 1 |
| Practice.CountOfNegative | client/src/pages/practice.tsx:189 | a typed negative decimal is kept negative, so the start check then rejects it |
| Practice.PracticeForm.HandleCountInput | client/src/pages/practice.tsx:188-191 | sets the parsed count and blanks the count message |
| VideoLibrary.FilteredVideos | client/src/pages/videos.tsx:32-38 | a video is shown iff its title or topic contains the query ignoring case and its subject id is the selected tab or the tab is "all"; an order-preserving subsequence |
| VideoLibrary.SubjectId | client/src/pages/videos.tsx:36 | the subject id has the subject's length and no spaces |
| VideoLibrary.EmptyQueryMatches | client/src/pages/videos.tsx:33-34 | an empty query matches every video |
| VideoLibrary.EmptyQueryShowsAll | client/src/pages/videos.tsx:32-38 | an empty query on the "all" tab shows the whole list |
| VideoLibrary.AllTabIsSearchOnly | client/src/pages/videos.tsx:35 | on the "all" tab only the search decides |
| VideoLibrary.SubjectTabShowsOwnSubject | client/src/pages/videos.tsx:35-36 | a subject tab shows only that subject's videos, and a tab id with a space shows none |
| VideoCatalog.CutBars | test.py:27 | no `|` is left |
| VideoCatalog.CutAtFirstBar | test.py:27 | a one-line title loses everything from its first `|` on |
| VideoCatalog.CutNoBar | test.py:27 | a title without a bar is unchanged |
| VideoCatalog.CutKeepsNextLine | test.py:27 | a bar removes only the rest of its own line; the line feed and the following lines are kept and cut in turn |
| VideoCatalog.KeepClean | test.py:28 | only letters, digits and whitespace are left |
| VideoCatalog.KeepCleanKeeps | test.py:28 | letters, digits and whitespace all survive, in order and with every copy, every other character is removed, and a clean text is unchanged |
| VideoCatalog.KeepCleanIsFilter | test.py:28 | the clean-up is the order-preserving filter that keeps exactly the letters, digits and whitespace |
| VideoCatalog.GuessTopicWords | test.py:29-31 | with more than two words the topic is the first three joined by single spaces; otherwise it is the cleaned, stripped title verbatim, inner spacing included; either way its words are the first three, at most three |
| VideoCatalog.GuessTopicClean | test.py:27-31 | the topic holds only letters, digits and whitespace |
| VideoCatalog.Prefix | test.py:38 | the prefix has at most two characters, all lowercase letters |
| VideoCatalog.PrefixOfTwoWords | test.py:38 | two alphabetic words give their two initials, lowercased |
| VideoCatalog.PrefixOfWords | test.py:38 | for any subject, given as its words, the prefix is the lowercased initials of the first two purely alphabetic words, with the other words skipped |
| VideoCatalog.CustomIdInjective | test.py:53 | a letter prefix followed by a counter determines both |
| VideoCatalog.PlaylistIdsDistinct | test.py:45-53 | the ids within one subject are all distinct |
| VideoCatalog.PlaylistVideoFields | test.py:45-63 | entry j of a subject gets id prefix + (j + 1), the subject and its video id |
| VideoCatalog.DurationShown | test.py:49 | "N/A" exactly for a missing or zero duration; otherwise minutes and two-digit seconds that read back to the duration |
| VideoCatalog.AppendPlaylist | test.py:45-63 | the inner loop appends the subject's records numbered from 1; afterwards the subject's counter equals the number of entries (no entry for an empty playlist) and every other counter is unchanged |
| VideoCatalog.BuildCatalog | test.py:36-63 | the script's loop builds exactly `Catalog` of the playlists |

## Left out

- I/O is not modelled. This covers HTTP routing (`server/routes.ts`), the `fetch` wrappers, JSON loading of the data files, `localStorage` serialisation, and the data script's `yt_dlp` fetching, exception handling and file writing. Stored values and fetched playlists are parameters or fields instead.
- The AI service is not modelled: its reply is an input, with `None` for a call that threw.
- `Math.random` is not modelled. The shuffle is any index permutation, and nothing is claimed about uniformity.
- `randomUUID` and `new Date()` are not modelled: the id and every clock reading are injected values.
- `Storage.MemStorage.GenerateTest`: requires only that `perm` is a permutation of the pool's indices. The injected id may be any string, and an existing test under it is overwritten, as `Map.set` does; that `randomUUID` gives a new id is not modelled.
- The quiz's `setInterval` timer and `handleSubmit` are not modelled; they only move values into local storage.
- Rendering is not modelled: the home, results and progress pages, the header and the app shell.
- Floating point is not modelled. Percentages and means are exact reals, so IEEE rounding is not reproduced.
- Text is treated as ASCII. `toLowerCase`, `trim`, `\s` and `isalpha` are not defined for other characters. Whitespace is space, tab, line feed, vertical tab, form feed and carriage return for both the TypeScript and the Python helpers; Python's `str.split()`, `str.strip()` and `\s` also count the four separators 0x1C-0x1F, so `GuessTopic` and `Prefix` differ from test.py on titles holding those characters.
- `num_questions` is modelled as a natural number; the schema allows a non-integer count.
- `marks`, `time_spent` and `marks_awarded` are modelled as integers, while the schema declares them as any number. The producers in view give integers: the bank's marks, and the quiz page's `Math.floor` of the elapsed seconds.
- `ProgressTracker.ProgressStore.GetProgress`: covers a present or absent stored record only. An empty stored string, which the source treats as absent, and malformed JSON are not represented.
- `ProgressTracker.ProgressStore.UpdateProgress`: requires every subject breakdown entry to have at least one question (`PositiveTotals`). The source divides only when it merges into an existing subject record: a new subject copies the entry's percentage. Only an existing record that already has zero questions, merged with a zero-question entry, gives 0/0. `JSON.stringify` would store that `NaN` as `null`. `PractisedSubject` demands `sb.total > 0` even where the combined total would be positive, so the model does not cover zero-question entries at all. Every result the evaluator builds meets the requirement (`ProgressTracker.EvaluatedResultIsSound`).
- `ProgressTracker.ProgressStore.UpdateProgress`: one `now` stands for every clock reading the update makes. The source reads the clock separately for the date, each record stamp and `updated_at`.
- `VideoCatalog.BuildCatalog`: requires distinct subjects. The playlists are the keys of a Python dictionary, so they are distinct in the source.
- The catalogue takes a playlist entry's video id as always present; a missing title is "Untitled", as the script reads it.
- `AiReplies.RecommendedTopics`: the failure fallback produces no list, because in the source it throws on the undefined `weekTopics`.

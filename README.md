# Onboarding assessment portal — a Dafny model of its core

The portal runs the onboarding tests of new employees ("new joinees"). Administrators manage
users, evaluators grade submitted attempts, managers re-evaluate and watch cohort figures, and
joinees take numbered tests one after the other. The browser pages talk to a Supabase
(PostgreSQL) database. One server function, `update-user`, changes a user's profile and role.

This project models the logic of those pages and of that function:

- `Schema`: the database enumerations and rows.
- `Store`: the tables as a `Database` class with field-granular frames, plus the row updates
  the pages issue.
- `Scoring`: the rounded percentage and the verdict.
- `Grading`: loading an attempt, typing scores and feedback, and the save loop. The
  evaluator's page and the manager's re-evaluation page share it.
- `ManagerReview`: the wrong-answer filter and the multiple-choice badge.
- `TestTaking`: the test page as a `TestSession` class. It covers resuming or creating the
  attempt, the countdown, autosaving answers and submitting.
- `JoineeDashboard`: the card statuses and test locking.
- `Validation`: the test and question form rules.
- `ReportCard`: the per-user report cards.
- `ManagerDashboard`: the headline figures, the cohort roll-up and the employee table.
- `EvaluatorDashboard`: the pending and evaluated lists with PostgreSQL ordering, the
  completed count and the searches.
- `UserAdmin`: the `update-user` handler, as a function on the tables and as a method on
  the `Database`.
- `UserForms`: the edit and create dialogs.
- `AuthRoutes`: sign-in, the role read and the router guards.

`Wrappers`, `Seqs` and `Text` hold the option/result types, the sequence toolkit and the
JavaScript string builtins (`trim`, ASCII `toLowerCase`, `includes`, `toString`).

The model works in the following terms:

- Database ids are natural numbers handed out by `Database.nextId`.
- Timestamps are integers (milliseconds).
- `Math.round(n / d)` is the exact integer `RoundDiv(n, d)`.
- Every `maybeSingle()`/`single()` read yields a row only when exactly one row matches.
- Database failures, the clock and the signed-in user are parameters.

## Model

| member | source | states |
|---|---|---|
| Schema.RoleName | src/integrations/supabase/types.ts:365-366 | each role's database spelling is one of the `app_role` constants |
| Schema.ParseRole | src/integrations/supabase/types.ts:366 | a string parses to a role iff it is that role's spelling; exactly the listed role strings parse |
| Schema.QuestionTypeName | src/integrations/supabase/types.ts:367 | each question type's spelling is one of the `question_type` constants |
| Schema.ParseQuestionType | src/integrations/supabase/types.ts:367 | a string parses to a type iff it is that type's spelling; only "mcq" and "text" parse |
| Schema.StatusName | src/integrations/supabase/types.ts:368-374 | each status's spelling is one of the `test_status` constants |
| Schema.ParseStatus | src/integrations/supabase/types.ts:368-374 | a string parses to a status iff it is that status's spelling; exactly the six listed strings parse |
| Schema.ConstantsMatchEnums | src/integrations/supabase/types.ts:499-515 | the `Constants` arrays list each enumeration value once, in order, with nothing missing |
| Schema.InsertedAttempt | src/integrations/supabase/types.ts:160-172 | an inserted attempt keeps the given test, user and status (the default when omitted), starts now, and has no score, verdict or submission time |
| Scoring.RoundDiv | src/pages/EvaluatePage.tsx:172 | `Math.round(n/d)`: the result r satisfies 2rd - d <= 2n < 2rd + d |
| Scoring.RoundDivUnique | src/pages/EvaluatePage.tsx:172 | no other integer meets those bounds, so the rounding is determined |
| Scoring.RoundDivBounds | src/pages/EvaluatePage.tsx:172 | a numerator within 0..k*d rounds to a value within 0..k |
| Scoring.RoundDivMonotonic | src/pages/EvaluatePage.tsx:172 | a larger numerator never rounds lower |
| Scoring.Percentage | src/pages/EvaluatePage.tsx:172 | 0 when the maximum is 0; otherwise the rounded 100*total/max |
| Scoring.PercentageBounds | src/pages/EvaluatePage.tsx:169-172 | a total within 0..max gives a percentage within 0..100 |
| Scoring.PercentageMonotonic | src/pages/EvaluatePage.tsx:172 | awarding more points never lowers the percentage |
| Scoring.VerdictMonotonic | src/pages/EvaluatePage.tsx:172-173 | awarding more points never turns a pass into a fail |
| Scoring.ClampScore | src/pages/EvaluatePage.tsx:125-131 | the typed number (NaN read as 0) clamped into 0..max; never negative; never above a non-negative max |
| Text.Trim | src/lib/validation.ts:6 | a slice of the input with only white space cut away around it, no white space at either end, and empty exactly when the input is blank |
| Text.TrimIdempotent | src/lib/validation.ts:5-13 | trimming a trimmed text changes nothing |
| Text.ToLower | src/pages/ManagerDashboard.tsx:206 | same length; letters lowered, every other character kept |
| Text.Contains | src/pages/ManagerDashboard.tsx:208-210 | `includes`: true exactly when the term occurs at some position |
| Text.EmptyTermMatches | src/pages/ManagerDashboard.tsx:205 | the empty term is contained in every string |
| Text.SelfMatches | src/pages/EvaluatorDashboard.tsx:195-196 | every string contains itself, ignoring case |
| Text.ContainsIgnoresTermCase | src/pages/EvaluatorDashboard.tsx:195-196 | lowering the term's case first gives the same verdict |
| Text.NatToString | src/pages/TestPage.tsx:231 | one or more decimal digits, a single one exactly for n < 10; `DigitsRoundTrip` reads them back |
| Text.IntToString | src/pages/TestPage.tsx:231 | a minus sign exactly for negative numbers, then the digits of the magnitude |
| Text.DigitsRoundTrip | src/pages/TestPage.tsx:229-231 | the digits of n denote n |
| Store.SingleMatch | src/App.tsx:60 | `maybeSingle()`: a row only when exactly one row matches, and then that row |
| Store.TwoMatchesNoSingle | src/pages/TestPage.tsx:110-116 | two matching rows yield nothing |
| Store.OnlyMatchIsSingle | src/pages/TestPage.tsx:110-116 | the only matching row is the one returned |
| Store.SetResponsePoints | src/pages/EvaluatePage.tsx:147-150 | rows with the id get the points; all other rows and columns are unchanged |
| Store.SetResponseAnswer | src/pages/TestPage.tsx:184-187 | rows with the id get the text; all else unchanged |
| Store.UpdateAttempt | src/pages/TestPage.tsx:212-215 | rows with the id are replaced by `f` of themselves; the others are kept |
| Store.Database.UpdateResponsePoints | src/pages/EvaluatePage.tsx:147-150 | the response table becomes `SetResponsePoints` of the old one, and the keys stay valid |
| Store.Database.UpdateResponseAnswer | src/pages/TestPage.tsx:184-187 | the response table becomes `SetResponseAnswer` of the old one |
| Store.Database.InsertEvaluation | src/pages/EvaluatePage.tsx:155-164 | the row is appended under the next id, and the counter advances |
| Store.Database.InsertResponse | src/pages/TestPage.tsx:189-193 | the row is appended under the next id |
| Store.Database.InsertAttempt | src/pages/TestPage.tsx:144-152 | the row is appended under the next id |
| Store.Database.ApplyToAttempt | src/pages/EvaluatePage.tsx:176-183 | the attempt table becomes `UpdateAttempt` of the old one |
| Grading.Joined | src/pages/EvaluatePage.tsx:88-104 | each response is paired with its own question; every response whose question exists is present |
| Grading.Load | src/pages/EvaluatePage.tsx:55-104 | fails with the first of attempt, profile and test that does not match exactly one row, and succeeds exactly when all three do; then gives that attempt, its profile, its test, and a permutation of its joined responses sorted by question number |
| Grading.InitialScoresKeys | src/pages/EvaluatePage.tsx:110-115 | the initial scores hold a key exactly for each response id |
| Grading.InitialScoresLatest | src/pages/EvaluatePage.tsx:110-115 | each id holds the stored points of the last response with that id, null as 0 |
| Grading.FeedbackIn | src/pages/EvaluatePage.tsx:161 | `feedback[id] || null`: a missing or empty feedback becomes null |
| Grading.MapTotalRemove | src/pages/EvaluatePage.tsx:170 | the sum of `Object.values` does not depend on the order of the keys |
| Grading.MapTotalZero | src/pages/EvaluatePage.tsx:170 | a map of zeros sums to 0 |
| Grading.ObjectValuesTotal | src/pages/EvaluatePage.tsx:170-171 | the summed `Object.values(scores)` equals the sum over the loaded responses when ids are distinct and no other key holds points |
| Grading.GradingSession.SavedScoreSumsObjectValues | src/pages/EvaluatePage.tsx:169-172 | the percentage saved equals the rounded percentage of the summed `Object.values(scores)` over the maximum |
| Grading.JoinedIdsDistinct | src/pages/EvaluatePage.tsx:88-104 | joining responses with distinct ids gives views with distinct ids |
| Grading.LoadedResponsesDistinct | src/pages/EvaluatePage.tsx:88-104 | over a response table whose ids are distinct (primary keys), the loaded responses have distinct ids |
| Grading.PercentageInRange | src/pages/EvaluatePage.tsx:169-173 | scores within their questions' bounds give a total within 0..max and a percentage within 0..100 |
| Grading.AwardPoints | src/pages/EvaluatePage.tsx:146-152 | the points writes keep the row count and every row id |
| Grading.AwardPointsEffect | src/pages/EvaluatePage.tsx:146-152 | a written response holds its score, only `points_awarded` changes, and every other row is unchanged |
| Grading.AwardPointsStep | src/pages/EvaluatePage.tsx:146-150 | one more loop iteration adds exactly one points write |
| Grading.EvaluationRowsContent | src/pages/EvaluatePage.tsx:154-166 | one final evaluation row per response, in order, under consecutive ids, with that response's score and feedback |
| Grading.EvaluationRowsStep | src/pages/EvaluatePage.tsx:154-166 | one more iteration appends exactly that response's row |
| Grading.MarkEvaluated | src/pages/EvaluatePage.tsx:175-183 | the attempt becomes evaluated with the score and verdict; every other attempt is unchanged |
| Grading.ReEvaluationOverrides | src/pages/ManagerReviewPage.tsx:184-191 | a re-evaluation leaves no trace of the earlier score and verdict |
| Grading.PointsWritten | src/pages/EvaluatePage.tsx:146-152 | the loop never writes more points than there are responses |
| Grading.EvaluationsWritten | src/pages/EvaluatePage.tsx:146-167 | no more evaluation rows than points writes; all of them exactly when the loop completes |
| Grading.GradingSession.constructor | src/pages/EvaluatePage.tsx:108-115 | from loaded responses with distinct ids, the page starts from them, their initial scores and empty feedback |
| Grading.GradingSession.MaxPointsOf | src/pages/EvaluatePage.tsx:127-128 | the maximum of a response with that id; 0 for an unknown id |
| Grading.GradingSession.ChangeScore | src/pages/EvaluatePage.tsx:125-131 | the clamped value replaces that score only; it lies within 0..max, and it is 0 for an unknown id |
| Grading.GradingSession.ChangeFeedback | src/pages/EvaluatePage.tsx:133-135 | the text replaces that response's feedback only |
| Grading.GradingSession.WriteResponses | src/pages/EvaluatePage.tsx:146-167 | the database holds the points and evaluation rows of exactly the responses reached before the first failed write, and it reports whether the loop completed |
| Grading.GradingSession.Save | src/pages/EvaluatePage.tsx:137-195 | without a user nothing is written; a failure leaves the attempt unchanged; on success the attempt is evaluated with the rounded percentage and the verdict |
| ManagerReview.WrongAnswers | src/pages/ManagerReviewPage.tsx:228-234 | exactly the responses whose stored points (null as 0) are below their maximum |
| ManagerReview.CorrectCount | src/pages/ManagerReviewPage.tsx:278 | the number of responses with full marks, within 0..count |
| ManagerReview.Displayed | src/pages/ManagerReviewPage.tsx:236 | all responses, or exactly the wrong ones |
| ManagerReview.WrongAnswersKeepOrder | src/pages/ManagerReviewPage.tsx:111-114 | filtering keeps the question-number order |
| ManagerReview.McqBadge | src/pages/ManagerReviewPage.tsx:368-369 | a badge exactly for auto-scored MCQ responses; "Correct" iff the trimmed answer equals the trimmed key, with null equal only to null |
| ManagerReview.TrimmedEqualOfTrimmed | src/pages/ManagerReviewPage.tsx:369 | comparing an answer or its trimmed form gives the same verdict |
| ManagerReview.BadgeIgnoresSurroundingSpace | src/pages/ManagerReviewPage.tsx:368-369 | white space around the answer never changes the badge |
| TestTaking.RemainingOnResume | src/pages/TestPage.tsx:134-141 | never negative; 0 iff the elapsed whole seconds reach the limit; otherwise the limit minus the elapsed seconds |
| TestTaking.ResumeAtStartIsFresh | src/pages/TestPage.tsx:135-158 | resuming at the start instant leaves the whole limit, as for a new attempt |
| TestTaking.RemainingDecreases | src/pages/TestPage.tsx:136-140 | resuming later never leaves more time |
| TestTaking.AnswersFromKeys | src/pages/TestPage.tsx:126-131 | the loaded answers are keyed by exactly the questions with a response row |
| TestTaking.AnswersFromLatest | src/pages/TestPage.tsx:126-131 | the last row of a question wins, null as "" |
| TestTaking.NextRemaining | src/pages/TestPage.tsx:68-73 | from 1 or less the countdown goes to 0; otherwise it drops by one |
| TestTaking.CountdownSteps | src/pages/TestPage.tsx:65-78 | k ticks from t > k leave t - k |
| TestTaking.CountdownExpiresOnTime | src/pages/TestPage.tsx:65-78 | a countdown from t >= 1 stays above 1 for t-1 ticks and reaches 0 on tick t |
| TestTaking.JsRem | src/pages/TestPage.tsx:230 | JavaScript `%`: the remainder of the magnitude, carrying the dividend's sign |
| TestTaking.PadStart2 | src/pages/TestPage.tsx:231 | `padStart(2, "0")`: a text of two or more characters is kept; a shorter one becomes two characters, zeros then the text |
| TestTaking.FormatTimeRoundTrip | src/pages/TestPage.tsx:228-232 | the `m:ss` display of s >= 0 seconds reads back as s |
| TestTaking.AnsweredCount | src/pages/TestPage.tsx:236 | never more than the number of keys; `AnsweringCounts` and `ClearingUncounts` fix how it moves |
| TestTaking.AnsweringCounts | src/pages/TestPage.tsx:170-171 | typing a non-empty answer counts the question, once |
| TestTaking.ClearingUncounts | src/pages/TestPage.tsx:170-171 | clearing an answered question takes one off the count |
| TestTaking.SubmitKeepsOpenUnique | src/pages/TestPage.tsx:212-215 | submitting keeps each user's in-progress attempts on a test unique |
| TestTaking.TestSession.constructor | src/pages/TestPage.tsx:50-57 | no test, no answers, no attempt, no timer, first question |
| TestTaking.TestSession.Open | src/pages/TestPage.tsx:80-168 | without a user or a single matching test nothing changes; otherwise the questions are sorted by number and the page and attempts end as `OpenAttempt` says |
| TestTaking.TestSession.LoadTest | src/pages/TestPage.tsx:89-107 | the page holds the test exactly when one row has its id, with that test's questions in ascending question number; otherwise nothing is set |
| TestTaking.TestSession.ResumeOrCreate | src/pages/TestPage.tsx:109-160 | the page and the attempts end as `OpenAttempt` says: a single in-progress attempt is resumed with its answers and remaining time; else a new one is inserted, or nothing changes when the insert fails |
| TestTaking.OpenAttemptKeepsUnique | src/pages/TestPage.tsx:109-160 | opening keeps each user's in-progress attempt on a test unique, and the page's attempt is then that single open attempt |
| TestTaking.TestSession.AnswerChange | src/pages/TestPage.tsx:170-199 | the local answer changes; the single response row is updated, otherwise one is inserted; the pair stays unique with the new text |
| TestTaking.TestSession.Submit | src/pages/TestPage.tsx:206-226 | with an attempt and no failure, the attempt is marked submitted now; otherwise nothing changes |
| TestTaking.TestSession.Tick | src/pages/TestPage.tsx:65-78 | the countdown drops by one; it expires exactly from 1 or less, then submits and stops the timer |
| TestTaking.TestSession.Previous | src/pages/TestPage.tsx:347 | one question back, never below the first |
| TestTaking.TestSession.Next | src/pages/TestPage.tsx:354-355 | one question forward, offered only before the last |
| TestTaking.CreatedAttemptIsTheOpenOne | src/pages/TestPage.tsx:143-155 | the inserted in-progress attempt is then the only open one |
| TestTaking.UpdatedAnswerStaysSingle | src/pages/TestPage.tsx:176-187 | updating the single row of a question keeps it single, now with the new text |
| TestTaking.InsertedAnswerIsSingle | src/pages/TestPage.tsx:188-193 | inserting the row of an unanswered question makes it the single row |
| JoineeDashboard.AttemptFor | src/pages/NewJoineeDashboard.tsx:62 | the first attempt on the test, or none when there is none |
| JoineeDashboard.GetTestStatus | src/pages/NewJoineeDashboard.tsx:61-90 | completed iff the first attempt is submitted/evaluated/graded; in progress iff it is in progress; locked iff neither and the listed predecessor's first attempt is not completed |
| JoineeDashboard.NeverLockedWithoutPredecessor | src/pages/NewJoineeDashboard.tsx:73-89 | test 1, or a test whose predecessor is not listed, is never locked |
| JoineeDashboard.LockedMeansPredecessorPending | src/pages/NewJoineeDashboard.tsx:73-85 | a locked test has a listed predecessor without a completed attempt |
| JoineeDashboard.AvailableAfterPredecessor | src/pages/NewJoineeDashboard.tsx:73-89 | an unattempted test whose predecessor is completed is available |
| JoineeDashboard.SubmittedTestShowsCompleted | src/pages/NewJoineeDashboard.tsx:62-66 | submitting the first attempt on a test shows it completed |
| JoineeDashboard.HandleStartTest | src/pages/NewJoineeDashboard.tsx:92-105 | locked and completed tests are refused; otherwise that test opens |
| JoineeDashboard.InProgressCanResume | src/pages/NewJoineeDashboard.tsx:61-105 | an in-progress test always reopens, whatever its predecessor |
| JoineeDashboard.CompletedTests | src/pages/NewJoineeDashboard.tsx:107-109 | all attempts minus those not completed |
| JoineeDashboard.SubmitAddsCompleted | src/pages/NewJoineeDashboard.tsx:107-109 | submitting an in-progress attempt adds one to the count |
| Validation.OptionalTrimmed | src/lib/validation.ts:9-13 | an absent value passes; a present one passes iff its trimmed length fits, and is then trimmed |
| Validation.ParseTestForm | src/lib/validation.ts:4-28 | accepted iff every bound holds (inclusive); the accepted form is the trimmed input |
| Validation.ParseTestFormIdempotent | src/lib/validation.ts:4-28 | parsing an accepted form again changes nothing |
| Validation.TestBoundsInclusive | src/lib/validation.ts:14-27 | 1, 9999, 300, 0 and 100 pass; one step beyond fails |
| Validation.ParseQuestionForm | src/lib/validation.ts:30-57 | accepted iff every bound holds; the text, the options and the correct answer are trimmed, absent options and an absent answer stay absent, and the type and image URL are kept; the type is "mcq" or "text" |
| Validation.AcceptedQuestionScores | src/lib/validation.ts:40-43 | an accepted question is worth 1..1000 points, and its type parses |
| Validation.ValidOptions | src/lib/validation.ts:66 | exactly the non-blank options |
| Validation.ValidateMcqQuestion | src/lib/validation.ts:60-82 | non-MCQ passes; MCQ reports too few options, then a blank answer, then an answer that is not an option, each iff its condition first fails |
| Validation.AcceptedMcqWellFormed | src/lib/validation.ts:65-78 | an accepted MCQ has at least two non-blank options and a non-blank answer among them |
| Validation.PaddedAnswerRejected | src/lib/validation.ts:76-78 | the answer is compared untrimmed, so " A" is not the option "A" |
| ReportCard.AccumulatedKeys | src/pages/ReportCard.tsx:153-157 | the dictionary's keys are exactly the rows' keys |
| ReportCard.AccumulatedIsGroupSum | src/pages/ReportCard.tsx:168-172 | each entry is the sum of its rows' values |
| ReportCard.AccumulateByKey | src/pages/ReportCard.tsx:153-172 | the `forEach` fill gives that dictionary |
| ReportCard.TotalMarksIsSum | src/pages/ReportCard.tsx:153-157 | a test's total marks are the sum of its questions' maxima |
| ReportCard.ScoredMarksIsSum | src/pages/ReportCard.tsx:168-172 | an attempt's scored marks are the sum of its responses' points, null as 0 |
| ReportCard.ResultFor | src/pages/ReportCard.tsx:177-185 | the test's title and number (or "Unknown Test" and 0), the looked-up marks, and null read as not passed |
| Seqs.SortByKeyStable | src/pages/ReportCard.tsx:186 | sorting by a numeric key keeps the elements of each key in their input order, as JavaScript's stable `sort` does |
| ReportCard.BuildReport | src/pages/ReportCard.tsx:175-197 | the user's attempts' rows, sorted by test number, with totals that are sums over those rows |
| ReportCard.OverallWithinBounds | src/pages/ReportCard.tsx:317-319 | marks within their tests' worth give an overall percentage within 0..100 |
| ReportCard.OverallPercentage | src/pages/ReportCard.tsx:317-319 | the rounded 100*scored/possible, 0 when nothing is possible |
| ReportCard.SelectedProfiles | src/pages/ReportCard.tsx:84-105 | exactly the profiles of the chosen cohort that match the id search |
| ReportCard.EmptySearchKeepsAll | src/pages/ReportCard.tsx:87-105 | "all" and an empty search keep every profile |
| ReportCard.Reports | src/pages/ReportCard.tsx:81-197 | one card per selected profile, in order |
| ReportCard.NoAttemptsGiveEmptyReports | src/pages/ReportCard.tsx:123-134 | without reportable attempts every card is empty with zero totals |
| ReportCard.ReportCountsReportableAttempts | src/pages/ReportCard.tsx:113-197 | a card has one row per evaluated or graded attempt of its user, in test-number order |
| ReportCard.ReportTotalsAreSums | src/pages/ReportCard.tsx:113-192 | a card's totals are, over its user's evaluated and graded attempts, the sum of each attempt's response points (null as 0) and the sum of its test's question maxima |
| ReportCard.FetchedTotals | src/pages/ReportCard.tsx:136-192 | narrowing questions and responses to the reportable tests and attempts leaves every reportable attempt's summed marks unchanged |
| ReportCard.FetchedMarks | src/pages/ReportCard.tsx:136-172 | a reportable attempt's looked-up marks are its sums over all questions of its test and all its responses |
| ManagerDashboard.RoundedMean | src/pages/ManagerDashboard.tsx:68 | 0 for no values; otherwise the rounded mean |
| ManagerDashboard.RoundedMeanBounds | src/pages/ManagerDashboard.tsx:180-182 | a mean of values within 0..k is within 0..k |
| ManagerDashboard.ComputeStats | src/pages/ManagerDashboard.tsx:57-79 | the employee count is the joinee role rows; average, top performers and completion are over finished attempts |
| ManagerDashboard.StatsBounds | src/pages/ManagerDashboard.tsx:64-72 | with scores in 0..100 the average is in 0..100, and the top performers are at most the finished attempts |
| ManagerDashboard.CohortOf | src/pages/ManagerDashboard.tsx:109 | null or empty cohort reads "Unassigned" |
| ManagerDashboard.RollUpCohorts | src/pages/ManagerDashboard.tsx:97-124 | fetching only evaluated and graded attempts and then running the two loops produces the roll-up |
| ManagerDashboard.CountProfiles | src/pages/ManagerDashboard.tsx:108-114 | the profile loop yields the per-cohort profile tallies |
| ManagerDashboard.AddAttempts | src/pages/ManagerDashboard.tsx:116-124 | the attempt loop adds scores and passes to existing cohorts only |
| ManagerDashboard.AddOne | src/pages/ManagerDashboard.tsx:116-123 | one attempt adds its score, null as 0, and a pass when it passed to the entry of its profile's cohort, and to nothing when that cohort has no entry |
| ManagerDashboard.ProfilesTallyCounts | src/pages/ManagerDashboard.tsx:108-114 | the cohorts are exactly those of the profiles; each counts its profiles and has no scores yet |
| ManagerDashboard.AttemptsTallyKeys | src/pages/ManagerDashboard.tsx:116-124 | the attempt loop adds and removes no cohort |
| ManagerDashboard.AttemptsTallyAdds | src/pages/ManagerDashboard.tsx:116-124 | each cohort keeps its total and gains its attempts' scores and passes, in order |
| ManagerDashboard.CohortScoresAreFiltered | src/pages/ManagerDashboard.tsx:116-121 | a cohort's scores are those of exactly its attempts |
| ManagerDashboard.CohortPassesAreCounted | src/pages/ManagerDashboard.tsx:116-123 | a cohort's passes are its passed attempts |
| ManagerDashboard.RollupCounts | src/pages/ManagerDashboard.tsx:88-124 | every profile is counted once in its cohort; the scores and passes are exactly those of its evaluated and graded attempts; attempts of cohorts without a profile are dropped |
| ManagerDashboard.UnfinishedAttemptIgnored | src/pages/ManagerDashboard.tsx:97-101 | an attempt that is neither evaluated nor graded changes no cohort |
| ManagerDashboard.CohortFigures | src/pages/ManagerDashboard.tsx:126-138 | each figure is a zero-guarded rounded ratio of the tally |
| ManagerDashboard.PassRateBounded | src/pages/ManagerDashboard.tsx:135-137 | a cohort's pass rate is within 0..100 |
| ManagerDashboard.CompletionCountsAttempts | src/pages/ManagerDashboard.tsx:132-134 | one employee with two finished attempts makes a cohort 200% complete |
| ManagerDashboard.EmployeeFigures | src/pages/ManagerDashboard.tsx:177-195 | the row counts the user's finished attempts, their rounded mean, passes and failures |
| ManagerDashboard.PassedPlusFailed | src/pages/ManagerDashboard.tsx:183-184 | passed + failed = tests completed |
| ManagerDashboard.EmployeeData | src/pages/ManagerDashboard.tsx:146-196 | one row per profile of a new joinee, in order; none when there is no joinee |
| ManagerDashboard.NoIdsNoProfiles | src/pages/ManagerDashboard.tsx:155-160 | an empty id list selects no profile |
| ManagerDashboard.SearchEmployees | src/pages/ManagerDashboard.tsx:204-212 | an empty search keeps all; otherwise exactly the rows whose name, id or cohort contains the term, ignoring case |
| ManagerDashboard.SearchFindsEmployeeId | src/pages/ManagerDashboard.tsx:204-212 | searching for a row's exact employee id keeps that row |
| EvaluatorDashboard.OrderAscending | src/pages/EvaluatorDashboard.tsx:74 | a permutation, ascending, with nulls last |
| EvaluatorDashboard.OrderDescending | src/pages/EvaluatorDashboard.tsx:131 | a permutation, descending, with nulls first |
| EvaluatorDashboard.PersonFor | src/pages/EvaluatorDashboard.tsx:105 | the first matching profile's name and id, or "Unknown"/"N/A" |
| EvaluatorDashboard.TestFor | src/pages/EvaluatorDashboard.tsx:106 | the first matching test's title and number, or "Unknown"/0 |
| EvaluatorDashboard.PassingScoreFor | src/pages/EvaluatorDashboard.tsx:167 | the first matching test's passing score, or 70 |
| EvaluatorDashboard.NarrowedProfiles | src/pages/EvaluatorDashboard.tsx:83-90 | fetching only the listed users' profiles changes no lookup |
| EvaluatorDashboard.NarrowedTests | src/pages/EvaluatorDashboard.tsx:84-98 | fetching only the listed tests changes no lookup |
| EvaluatorDashboard.FetchedJoinsAgree | src/pages/EvaluatorDashboard.tsx:83-107 | every row's joins agree with lookups in the whole tables |
| EvaluatorDashboard.PendingJoin | src/pages/EvaluatorDashboard.tsx:103-107 | one row per attempt, in order, with its person and test |
| EvaluatorDashboard.PendingOrder | src/pages/EvaluatorDashboard.tsx:70-74 | the submitted attempts, as a permutation, oldest submission first |
| EvaluatorDashboard.PendingEvaluations | src/pages/EvaluatorDashboard.tsx:67-116 | exactly the submitted attempts, oldest first, each with its joinee and test from the whole tables |
| EvaluatorDashboard.FetchedEvaluations | src/pages/EvaluatorDashboard.tsx:156-160 | the listed attempts' evaluations, as a permutation, newest first |
| EvaluatorDashboard.EvaluationsFor | src/pages/EvaluatorDashboard.tsx:168 | exactly that attempt's evaluations |
| EvaluatorDashboard.EvaluationLists | src/pages/EvaluatorDashboard.tsx:156-168 | each attempt's evaluations, as a permutation, newest first |
| EvaluatorDashboard.EvaluatedJoin | src/pages/EvaluatorDashboard.tsx:164-169 | one row per attempt with its person, test, passing score and evaluations |
| EvaluatorDashboard.EvaluatedOrder | src/pages/EvaluatorDashboard.tsx:120-131 | the evaluated attempts, newest submission first |
| EvaluatorDashboard.EvaluatedTests | src/pages/EvaluatorDashboard.tsx:118-176 | exactly the evaluated attempts, newest first, with their joins and their evaluations newest first |
| EvaluatorDashboard.EvaluatedOnIsLatest | src/pages/EvaluatorDashboard.tsx:407-409 | the shown date is the latest evaluation date of the attempt; "-" iff it has no dated evaluation |
| EvaluatorDashboard.CompletedCount | src/pages/EvaluatorDashboard.tsx:178-190 | the count of evaluated attempts, equal to the evaluated list's length |
| EvaluatorDashboard.SearchByEmployeeId | src/pages/EvaluatorDashboard.tsx:192-204 | an empty term keeps all; otherwise exactly the rows whose employee id contains the term, ignoring case |
| EvaluatorDashboard.SearchPending | src/pages/EvaluatorDashboard.tsx:192-197 | the pending search |
| EvaluatorDashboard.SearchEvaluated | src/pages/EvaluatorDashboard.tsx:199-204 | the evaluated search |
| EvaluatorDashboard.SearchKeepsOrder | src/pages/EvaluatorDashboard.tsx:192-204 | the search keeps the list's order |
| EvaluatorDashboard.UnknownJoineeFoundByNa | src/pages/EvaluatorDashboard.tsx:192-197 | a missing profile shows as "N/A" and is found by "n/a" |
| EvaluatorDashboard.SavedEvaluationMovesAttempt | src/pages/EvaluatorDashboard.tsx:67-190 | evaluating a submitted attempt takes one row off the pending list and adds one to the evaluated list and to the completed count |
| UserAdmin.Status | supabase/functions/update-user/index.ts:16-160 | 200 on success; 401 without header or user; 403 for a non-admin; 400 without a user id; 500 for a failed write |
| UserAdmin.AsGiven | supabase/functions/update-user/index.ts:80-81 | an absent field stays absent; null and strings are copied |
| UserAdmin.EmptyAsNull | supabase/functions/update-user/index.ts:82-83 | `|| null`: empty or null becomes null |
| UserAdmin.BuildPatch | supabase/functions/update-user/index.ts:79-83 | exactly the supplied fields |
| UserAdmin.Patched | supabase/functions/update-user/index.ts:85-91 | the supplied columns set, `updated_at` now, the rest kept |
| UserAdmin.PatchProfiles | supabase/functions/update-user/index.ts:88-91 | only the target's profile is patched |
| UserAdmin.RoleValue | supabase/functions/update-user/index.ts:137-144 | null or a string outside the enum is no role |
| UserAdmin.UpdateUser | supabase/functions/update-user/index.ts:14-160 | the checks run in order, each failing iff the earlier ones passed and it fails; a rejected request changes nothing |
| UserAdmin.ReplaceRole | supabase/functions/update-user/index.ts:105-155 | profiles are never touched, and any failure is a failed role fetch, delete or insert |
| UserAdmin.ReplaceRoleOutcomes | supabase/functions/update-user/index.ts:105-152 | no role field changes nothing; a failed fetch or delete leaves the tables as they were; a failed insert leaves the user's roles deleted |
| UserAdmin.FailedProfileWriteChangesNothing | supabase/functions/update-user/index.ts:16-99 | a rejected check or failed profile write leaves every table as it was; the profile write fails exactly when the request passed every check, supplies a field and the write is refused |
| UserAdmin.SuccessPatchesSuppliedFields | supabase/functions/update-user/index.ts:79-102 | success patches the target with exactly the supplied fields |
| UserAdmin.SuccessLeavesExactlyOneRole | supabase/functions/update-user/index.ts:105-155 | a successful role change leaves the user exactly one role, granted by the caller now; others keep theirs |
| UserAdmin.NoneOfUserKept | supabase/functions/update-user/index.ts:121-125 | the delete leaves none of the user's roles |
| UserAdmin.NoRoleKeepsRoles | supabase/functions/update-user/index.ts:105 | without a role field the roles are unchanged |
| UserAdmin.InvalidRoleLeavesNoRole | supabase/functions/update-user/index.ts:121-152 | a null or unknown role answers 500 and leaves the user with no role |
| UserAdmin.HandleUpdateUser | supabase/functions/update-user/index.ts:8-170 | the database ends as `UpdateUser` says, with its keys valid |
| UserAdmin.ChangeRole | supabase/functions/update-user/index.ts:105-155 | the role table ends as `ReplaceRole` says |
| UserForms.OpenEditForm | src/components/EditUserDialog.tsx:37-47 | null columns become empty fields; the role is the first held, or empty |
| UserForms.TrimmedOrNull | src/components/EditUserDialog.tsx:82-83 | a blank field is null; otherwise it is the trimmed text |
| UserForms.SubmitEdit | src/components/EditUserDialog.tsx:49-89 | no user sends nothing; the first empty required field is reported; otherwise the trimmed request is sent |
| UserForms.EditRequestNeedsNoNulling | src/components/EditUserDialog.tsx:77-85 | the handler's `|| null` changes nothing the dialog sends |
| UserForms.SaveUnchangedSendsSameData | src/components/EditUserDialog.tsx:37-89 | saving an unedited dialog of tidy data sends the stored values |
| UserForms.SavedEditLeavesChosenRole | src/components/EditUserDialog.tsx:77-96 | a saved edit leaves the user exactly the chosen role |
| UserForms.OrElse | src/components/EditUserDialog.tsx:98 | a non-empty text, else the fallback |
| UserForms.EditReply | src/components/EditUserDialog.tsx:71-102 | the reply's success, else the first applicable message |
| UserForms.EmployeeNumber | src/components/CreateUserForm.tsx:30 | the number of an accepted id is below 1000 |
| UserForms.EmployeeIdOf | src/components/CreateUserForm.tsx:30 | the padded id of a number below 1000 is accepted |
| UserForms.EmployeeNumberOfId | src/components/CreateUserForm.tsx:30 | the number of a padded id is the number |
| UserForms.EmployeeIdOfNumber | src/components/CreateUserForm.tsx:30 | every accepted id is the padded form of its number |
| UserForms.EmployeeIdExamples | src/components/CreateUserForm.tsx:30-33 | "MSWIL_001" passes; two or four digits, or a lower-case prefix, fail |
| UserForms.CheckCreate | src/components/CreateUserForm.tsx:21-33 | the required fields first, then the id format, which an empty id skips |
| UserForms.CreateReply | src/components/CreateUserForm.tsx:48-52 | an invocation or reply error is a failure |
| UserForms.FormAfterCreate | src/components/CreateUserForm.tsx:55-64 | cleared on success, kept on failure |
| UserForms.ClearedFormIsRejected | src/components/CreateUserForm.tsx:24-61 | a cleared form fails the required-field check |
| AuthRoutes.ValidateLogin | src/pages/Auth.tsx:12-33 | the first failing field's message; otherwise the trimmed id at the portal domain with the password |
| AuthRoutes.EmailRoundTrip | src/pages/Auth.tsx:33 | the e-mail gives back the trimmed id; two forms share an e-mail iff their trimmed ids agree |
| AuthRoutes.SignInMessage | src/pages/Auth.tsx:40-46 | bad credentials are reworded; other messages are shown as is |
| AuthRoutes.BadCredentialsReworded | src/pages/Auth.tsx:41-42 | any message containing the service wording is reworded |
| AuthRoutes.Login | src/pages/Auth.tsx:25-59 | an invalid form shows its message; otherwise the service's answer decides |
| AuthRoutes.InvalidFormMakesNoCall | src/pages/Auth.tsx:28-38 | an invalid form does not reach the service |
| AuthRoutes.FetchRole | src/App.tsx:55-73 | a role only when exactly one row names the user, and it is one of the role names |
| AuthRoutes.DashboardRoute | src/App.tsx:74-88 | each role goes to its dashboard; no role or an unknown one goes to /auth |
| AuthRoutes.Render | src/App.tsx:100-112 | a guarded page shows iff signed in with an admitted role; otherwise it redirects to /auth |
| AuthRoutes.DashboardAdmitsItsRole | src/App.tsx:100-110 | a role's dashboard route admits that role |
| AuthRoutes.SharedPagesAccess | src/App.tsx:106-111 | which roles reach evaluation, manager review, tests and report cards |
| AuthRoutes.SignedInWithoutRole | src/App.tsx:74-101 | a signed-in user without a role is kept off every guarded page, and /auth redirects to itself |
| AuthRoutes.TwoRolesReadAsNone | src/App.tsx:60-65 | a user with two role rows reads no role |
| AuthRoutes.UpdatedRoleIsRead | src/App.tsx:55-73 | after a successful role update, the next read gives that role and its dashboard |
| AuthRoutes.SoleRoleIsRead | src/App.tsx:60-65 | a user named by one row reads its role |

## Left out

- Rendering (JSX), toasts, navigation effects, the progress bars and the loading flags are not modelled.
- The network, row-level security policies and the authentication service are not modelled. The signed-in user, the session and the outcome of every database write are parameters.
- Errors of database reads are not modelled. The model injects failures of the writes, and of the admin check and role fetch in `update-user`.
- Concurrency is not modelled. This covers the `setInterval` timer, overlapping autosaves and interleaved requests; one tick is one call of `TestSession.Tick`.
- Floating point is not modelled. Ratios use the exact `RoundDiv`, which agrees with `Math.round` on exact rationals.
- Sorts by `localeCompare` are left out: the report cards by name, the cohort table by cohort and the employees by name. The model keeps the unsorted order.
- Ties in a database `order` are unspecified in PostgreSQL. The model fixes one order for them, the stable one of `Seqs.SortByKey`.
- The JavaScript `Map` insertion order of the cohort roll-up is not modelled; the roll-up is a Dafny `map`.
- `parseInt` is left out: a typed score arrives as `Option<int>`, with `None` for NaN.
- The zod schema engine is left out; the rules are stated directly. The URL check of `image_url` is a parameter.
- String lengths are counted in Unicode scalar values (Dafny `char`), not in the UTF-16 code units that JavaScript's `length` and zod's `min`/`max` count. A character outside the Basic Multilingual Plane counts once here and twice in the source, so the length bounds of `Validation.OptionalTrimmed`, `Validation.ParseTestForm`, `Validation.ParseQuestionForm` and `AuthRoutes.ValidateLogin` differ from the source exactly for text holding such characters (for instance, a two-emoji user id has length 4 in JavaScript and passes `min(3)`, but is too short here).
- `toLowerCase` is ASCII-only. `trim` uses the ASCII white space and the common Unicode spaces listed in `Text.IsWhitespace`.
- Database defaults (`started_at`, `evaluated_at`, `assigned_at`) are taken as the `now` parameter.
- In `Grading.Joined`, a response whose question row is missing is skipped, not shown with a null question.
- `UserForms.CreateReply`: an invocation error with an empty message is reported as "Failed to create user"; the page would show the empty message itself. Supabase invocation errors always carry a message.
- The CORS preflight (`OPTIONS`) and the catch-all 500 for an unexpected exception in `update-user` are not modelled.
- The text of database error messages is not modelled; only the status and the error kind are.
- The `/setup` page, the `NotFound` page and the `onAuthStateChange` subscription of the App are not modelled.
- `ReportCard.SelectedProfiles`: a profile row has no `user_id` column, so the search is stated on `employee_id` alone.
- `EvaluatorDashboard.PendingEvaluations`: the model takes the profiles fetch as succeeding. That fetch selects `id, full_name, employee_id, user_id`, but the profiles table has no `user_id` column (src/integrations/supabase/types.ts:116-125). PostgREST then answers with an error whenever some attempt is submitted, and the page shows "Failed to load pending evaluations" and keeps its previous, initially empty, list (src/pages/EvaluatorDashboard.tsx:86-92, 110-111). The model states what the page shows once that fetch succeeds.
- `EvaluatorDashboard.EvaluatedTests`: the same holds for the evaluated list, whose profiles fetch has the same select (src/pages/EvaluatorDashboard.tsx:142-147, 172-173).
- The test management page, the admin dashboard and the `create-user`, `setup-test-users` and `cleanup-orphan-users` functions are not part of this model. The create form models only its own checks and the reply.

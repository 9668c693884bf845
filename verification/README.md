# QuantFlash review scheduler in Dafny

QuantFlash is a flashcard study app. This project models its scheduling
core:

- the SuperMemo-2 (SM-2) transition of the `update_srs` edge function
  (`calculateSM2`);
- the edge function's request handler, which validates the request,
  fetches the review record, computes the transition and upserts it by key;
- the answer-submission route `POST /api/answer`, which records an answer
  and calls the scheduler with quality 5 for "knew it" and 1 for "guessed";
- the study page's rules for picking the next question and counting due
  reviews;
- the Next.js middleware that guards `/study` and `/auth`.

The model is functional. Every table is an immutable value:

- the scheduler and the answer route see `review_state` as a `map` keyed by
  (user, question);
- the study page reads `review_state` as a sequence of rows in table order.
  It does not assume one row per key, and its lemmas hold for every sequence.
  Nothing in the model connects the two views of the table;
- `user_answers` and `questions` are sequences in table order.

Each handler is a pure function from its request and the tables to its
response and the new tables. The following are parameters, not hidden
reads: the clock, the signed-in user, the session, and whether each
database query or network call fails.

## Encoding choices

- **Easiness in hundredths.** Easiness is an `int` number of hundredths:
  250 means 2.5, and the floor 1.3 is 130. Quality is an integer, so every
  easiness step `0.1 - (5-q)(0.08 + (5-q)0.02)` is a whole number of
  hundredths, and the encoding is exact. `Sm2Reference` restates the step
  over Dafny's `real` with the source's decimal constants.
  `Sm2Reference.TransitionMatchesReference` proves that the integer model
  agrees with it field by field.
- **Rounding.** `Math.round(interval * easiness)` is floor(x + 1/2). With
  easiness in hundredths this is `(interval * E + 50) / 100`.
  `Sm2Reference.RoundingMatchesReal` proves the two equal for all integers.
- **Missing fields.** The source fills missing prior fields with JavaScript
  `||` defaults. So a stored 0 is replaced as well as an absent value: an
  interval of 0 reads as 1 and an easiness of 0 reads as 2.5.
  `Sm2.OrDefault` models this.
- **Absent and null quality.** The scheduler's missing-field test is
  `quality === undefined`, so a JSON `null` quality passes it. It then fails
  the range test, since `null < 1` holds in JavaScript.
  `UpdateSrs.JsonQuality` keeps the three cases apart: absent, null, or a
  number.
- **Instants.** Instants are integer milliseconds. A day is 86 400 000 ms.
- **Clocks.** The scheduler's `new Date()` for `updated_at` is the
  parameter `clock`. The answer route's single clock reading is `now`.

## Behaviour of the code worth knowing

- **No lost-update protection.** Fetch-compute-upsert in
  `update_srs/index.ts:107-137` holds no lock and checks no version.
  `UpdateSrs.InterleavedPair` models two handlers that both fetch before
  either upserts. `UpdateSrs.InterleavedPairLosesUpdate` shows that one of
  two "knew it" answers is then lost. `UpdateSrs.SequentialRequestsCompose`
  proves that sequential handling composes the two transitions.
- **No conflict error.** There is no conflict or retry error. Store
  failures are plain 500 responses, and nothing is written.
- **Zeros count as missing.** The seed is used not only for an absent
  record: the code's `||` also replaces stored zeros (see
  `Sm2.FreshIsSeed`).
- **`updated_at` can go backwards.** `updated_at` is the function's
  wall-clock reading. Nothing makes it non-decreasing across updates.
- **SRS failures are swallowed.** The answer route ignores scheduling
  failures and still reports `srs_updated: true`
  (`AnswerRoute.SrsFailureIgnored`).
- **Duplicate rows on lookup failure.** The route ignores an error from its
  existing-answer lookup and inserts. A user who already has a row then
  gets a second one (`AnswerRoute.LookupFailureDuplicates`). With a working
  lookup the route keeps one row per (user, question)
  (`AnswerRoute.PostKeepsOneRowPerPair`).
- **Reviewed questions can come back as new.** The study page never reads
  the error of its reviewed-ids query. When that query fails and nothing is
  due, the filter is skipped and the first question in the table is shown,
  even one the user has already reviewed
  (`StudySelection.ReviewedQueryFailureSkipsFilter`).
- **The answer row's `due_at` is never rescheduled.** The answer route
  writes the answer instant into `user_answers.due_at` as a placeholder,
  and its comments say the scheduling calculation will override it. It
  never does: the scheduler writes only `review_state`. Whatever the
  scheduling call does, the user's answer row keeps `due_at` equal to the
  answer instant (`AnswerRoute.AnswerDueAtStaysPlaceholder`).
- **Rounding rule.** Rounding is `Math.round`: halves go up, so 7.5 becomes
  8.
- **Easiness still moves on failure.** A failing answer changes easiness
  too, as classic SM-2 does. A first "guessed" gives 2.5 - 0.54 = 1.96
  (`Scenarios.FirstFailure`).

## Model

| member | source | states |
|---|---|---|
| Sm2.NextEasiness | supabase/functions/update_srs/index.ts:49-53 | the new easiness is never below 1.3, is never below easiness plus the quality's step, and is one of the two |
| Sm2.Transition | supabase/functions/update_srs/index.ts:27-68 | the record keeps the caller's user and question ids; easiness is at least 1.3; due_at is answered_at plus interval days; updated_at is the clock reading; a failure leaves repetition 0 and interval 1; a success adds exactly one to the prior repetition |
| Sm2.FreshIsSeed | supabase/functions/update_srs/index.ts:28-30 | a first response is the transition from the seed {0, 1, 2.5}, and so is a prior record holding zeros |
| Sm2.FailureResets | supabase/functions/update_srs/index.ts:33-36 | quality below 3 gives repetition 0 and interval 1 whatever the prior state; easiness still moves by the formula and the card is due one day later |
| Sm2.SuccessLadder | supabase/functions/update_srs/index.ts:38-47 | on success, repetition 0 gives interval 1, repetition 1 gives 6, any other gives round(interval * easiness) with the pre-update easiness; repetition rises by one |
| Sm2.EasinessDeltaTable | supabase/functions/update_srs/index.ts:52 | the easiness steps for qualities 5, 4, 3, 2, 1 are +0.10, 0.00, -0.14, -0.32, -0.54 |
| Sm2.EasinessAtFloor | supabase/functions/update_srs/index.ts:50-53 | easiness after any transition is at least 1.3, and exactly 1.3 when the additive update lands at or below it |
| Sm2.RoundedProductGrows | supabase/functions/update_srs/index.ts:44 | with interval at least 1 and easiness at least 1.3, round(interval * easiness) is at least the interval |
| Sm2.IntervalGrowsOnSuccess | supabase/functions/update_srs/index.ts:38-47 | on a success from repetition 2 or more, with interval at least 1 and easiness at least 1.3, the interval does not shrink |
| Sm2.RepetitionZeroIffFailure | supabase/functions/update_srs/index.ts:33-47 | from a non-negative streak, the new repetition is 0 exactly when the answer failed |
| Sm2.FreshTransitionWellFormed | supabase/functions/update_srs/index.ts:27-68 | the first record of a key has repetition at least 0, interval at least 1, easiness at least 1.3, and an interval on the 1, 1, 6 ladder |
| Sm2.TransitionPreservesWellFormed | supabase/functions/update_srs/index.ts:27-68 | a transition keeps those bounds and the ladder: interval 1 up to repetition 1, 6 at repetition 2, at least 6 after |
| Sm2.ClockOnlyStampsUpdatedAt | supabase/functions/update_srs/index.ts:55-66 | two transitions that differ only in the wall clock differ only in updated_at, so due_at depends on the answer instant alone |
| Sm2Reference.RoundingMatchesReal | supabase/functions/update_srs/index.ts:44 | the integer rounding equals Math.round of interval times easiness over the reals |
| Sm2Reference.EasinessMatchesReal | supabase/functions/update_srs/index.ts:50-53 | the hundredths easiness update equals max(1.3, e + (0.1 - (5-q)(0.08 + (5-q)0.02))) over the reals, for every integer quality |
| Sm2Reference.TransitionMatchesReference | supabase/functions/update_srs/index.ts:27-53 | repetition, interval and easiness of the transition agree with the real-number SM-2 step |
| UpdateSrs.Fetch | supabase/functions/update_srs/index.ts:107-114 | a found row is the one filed under the key and carries the key's ids; without a fault, and with every row filed under its own ids, a row is found exactly when the table has the key; any error code other than "no rows" (PGRST116) comes from a store fault |
| UpdateSrs.Handle | supabase/functions/update_srs/index.ts:70-178 | a preflight is answered exactly for OPTIONS; 400 exactly for a POST body with a missing field, or a quality that is null or a number outside 1..5; every non-success leaves the table unchanged; a success has the request's key, writes that key only, dates due_at from the request's answered_at and stamps updated_at from the clock |
| UpdateSrs.InvalidRequestTouchesNoStore | supabase/functions/update_srs/index.ts:86-104 | a missing field (an absent quality, not a null one) gives 400 "Missing required fields"; otherwise an invalid request, a null quality included, gives 400 "Quality must be between 1 and 5"; the answer does not depend on the table, on store faults or on the clock, and nothing is written |
| UpdateSrs.FetchFailureAborts | supabase/functions/update_srs/index.ts:114-123 | a fetch error other than PGRST116 gives 500 "Failed to fetch review state" and no upsert |
| UpdateSrs.UpsertFailureAborts | supabase/functions/update_srs/index.ts:139-148 | a failed upsert gives 500 and leaves the table unchanged |
| UpdateSrs.ValidRequestApplied | supabase/functions/update_srs/index.ts:106-137 | without faults, the key's row becomes the transition of the stored row, or of the seed for a new key; the response carries it; every other key keeps its row |
| UpdateSrs.HandlePreservesStore | supabase/functions/update_srs/index.ts:126-137 | every row stays filed under its own (user_id, question_id), and every row keeps the SM-2 bounds and ladder |
| UpdateSrs.SequentialRequestsCompose | supabase/functions/update_srs/index.ts:106-137 | two requests for one key handled in turn leave the second transition applied to the first one's result |
| UpdateSrs.InterleavedPair | supabase/functions/update_srs/index.ts:107-137 | two handlers that fetch the same prior row before either upserts leave exactly the table that handling the second request alone would leave: the first update is lost, for every table and every pair of requests |
| UpdateSrs.InterleavedPairLosesUpdate | supabase/functions/update_srs/index.ts:107-137 | under that interleaving, two "knew it" answers on a new key record repetition 1, where handling them in turn records 2 |
| AnswerRoute.Quality | app/api/answer/route.ts:95 | the quality sent is 5 for "knew it" and 1 for "guessed", so the easiness step is +0.10 or -0.54; it is within 1..5 and a failure quality exactly when the answer was "guessed" |
| AnswerRoute.Lookup | app/api/answer/route.ts:30-35 | the existing-answer id is found exactly when the query succeeds and the user has exactly one row for the question, and the id found is that of a row of the user for the question |
| AnswerRoute.UpdateById | app/api/answer/route.ts:40-47 | the update rewrites correct, answered_at and due_at of the rows with that id, and leaves the other rows as they were |
| AnswerRoute.CallSrs | app/api/answer/route.ts:83-110 | an unreachable function writes nothing; a delivered call writes at most the request's key; a fault-free call with a valid request leaves a row for the key stamped with the call's clock and due interval days after answered_at; a well-formed review table stays well-formed |
| AnswerRoute.Post | app/api/answer/route.ts:4-123 | 400 exactly for a missing question_id or a non-boolean correct; 401 exactly for a valid body with no user; nothing is written unless the answer is recorded; a recorded answer belongs to the user and question, carries the submitted correctness and one instant as both answered_at and due_at, reports srs_updated true, and the review table is what the scheduling call left |
| AnswerRoute.UniqueMatchCount | app/api/answer/route.ts:30-81 | in a table with distinct ids and one row per pair, a user has at most one row for a question |
| AnswerRoute.UpdatedRowFound | app/api/answer/route.ts:38-58 | updating the found row by its id leaves it, with the new correctness and instants, where the lookup finds it |
| AnswerRoute.InsertKeepsTableOk | app/api/answer/route.ts:59-71 | inserting a row with a fresh id, for a pair that has none, keeps ids distinct and pairs unique |
| AnswerRoute.PostKeepsOneRowPerPair | app/api/answer/route.ts:30-81 | with a working lookup, the table keeps distinct ids and one row per pair; after a recorded answer the pair has exactly one row, which is the returned data; an existing row keeps its id, user and question and position, gets the new correctness and instants, and the length is unchanged; otherwise the returned row is appended at the end; every row of another pair keeps its position and content |
| AnswerRoute.RejectedRequestsWriteNothing | app/api/answer/route.ts:8-25 | a bad body gives 400 and a missing user gives 401, and neither writes to any table |
| AnswerRoute.SrsFailureIgnored | app/api/answer/route.ts:83-115 | the response and the answer table are the same however the scheduling call goes, and the response reports srs_updated true |
| AnswerRoute.AnswerReschedules | app/api/answer/route.ts:27-98 | a delivered scheduling call applies the transition with quality 5 or 1 to the key's record; due_at is the answer's answered_at plus the new interval in days; "knew it" extends the streak by one and "guessed" resets it to repetition 0, interval 1 |
| AnswerRoute.AnswerDueAtStaysPlaceholder | app/api/answer/route.ts:40-110 | with a working lookup, after a recorded answer the pair's one row in user_answers has due_at equal to the answer instant, the same for every outcome of the scheduling call; the scheduling call changes only review_state |
| AnswerRoute.LookupFailureDuplicates | app/api/answer/route.ts:30-81 | when the existing-answer lookup errs, a user who already has a row for the question ends with two |
| StudySelection.OwnRows | app/study/page.tsx:47 | the filtered rows are exactly the user's rows |
| StudySelection.Earliest | app/study/page.tsx:49-50 | the first row of the due_at ordering is present exactly when there are rows, comes from them, and has the least due_at |
| StudySelection.QuestionById | app/study/page.tsx:42-45 | the embedded question has the row's question id, and is absent only when no question has that id |
| StudySelection.ReviewedIds | app/study/page.tsx:61-66 | the reviewed ids are exactly the question ids of the user's rows |
| StudySelection.FirstUnreviewed | app/study/page.tsx:68-74 | the question found is in the table and not among the reviewed ids; none is found exactly when every question is reviewed |
| StudySelection.OnlyOwnRowsMatter | app/study/page.tsx:36-112 | the next question and the due count are the same when the table is cut down to the user's own rows |
| StudySelection.DueFirst | app/study/page.tsx:39-58 | if any of the user's rows is due, the chosen question is that of one of the user's due rows with the least due_at |
| StudySelection.ReviewedIdsEmptyIff | app/study/page.tsx:66-72 | the id filter is skipped exactly when the user has no review rows |
| StudySelection.NewQuestionIsUnreviewed | app/study/page.tsx:60-82 | when nothing is due, the chosen question is one the user has never reviewed; with no reviews it is the first question, unfiltered |
| StudySelection.NextQuestion | app/study/page.tsx:36-93 | a failed due query keeps the current question; if the user has a due row, the choice is the question of one of the user's due rows with the least due_at; with nothing due and working queries, the choice is a question the user has not reviewed, and there is none only when every question has been reviewed |
| StudySelection.CountDue | app/study/page.tsx:97-101 | the count is at most the table size and is zero exactly when no row of the user is due |
| StudySelection.DueCount | app/study/page.tsx:95-112 | a failed count query keeps the old count; otherwise the count is the number of the user's due rows, and it is positive exactly when one of them is due |
| StudySelection.NoQuestionIff | app/study/page.tsx:57-86 | without query errors, and with every reviewed question present, the current question becomes null exactly when nothing is due and every question has a review row |
| StudySelection.CountDueIsDueRows | app/study/page.tsx:95-108 | the due count equals the number of the user's rows with due_at at or before now |
| StudySelection.CountAgreesWithSelection | app/study/page.tsx:39-108 | at the same now, the count is positive exactly when the due branch picks a question, and exactly when one of the user's rows is due |
| StudySelection.ReviewedQueryFailureSkipsFilter | app/study/page.tsx:61-74 | with nothing due and only the reviewed-ids query failing, the choice is the first question in the table, so a question the user has already reviewed can be shown as new |
| StudySelection.QueryFailureKeepsCurrent | app/study/page.tsx:52-106 | a failed due query, or a failed new-question query when nothing is due, keeps the current question; a failed count keeps the count |
| RouteGuard.Middleware | middleware.ts:5-24 | a redirect goes to /study or /auth and never to the path requested |
| RouteGuard.Guard | middleware.ts:26-28 | the guard redirects only on paths the matcher selects, and there it decides as the middleware does |
| RouteGuard.DecisionTable | middleware.ts:14-23 | no session and a path starting with /study redirects to /auth; a session at exactly /auth redirects to /study; every other pair passes through |
| RouteGuard.RedirectsExclusive | middleware.ts:14-21 | no path meets both redirect conditions |
| RouteGuard.NoRedirectLoop | middleware.ts:14-21 | following a redirect with the same session passes through |
| RouteGuard.PrefixAndExactMatch | middleware.ts:14-19 | every /study path is guarded (prefix match); /auth followed by anything is not redirected (exact match) |
| RouteGuard.MatcherScopesGuard | middleware.ts:26-28 | on matched paths the guard is the middleware, elsewhere it passes; /studyguide passes the guard though the middleware alone would redirect it |
| Scenarios.FirstFailure | supabase/functions/update_srs/index.ts:27-53 | a first "guessed" gives repetition 0, interval 1, easiness 1.96, due one day later |
| Scenarios.ThreeSuccesses | supabase/functions/update_srs/index.ts:38-53 | three "knew it" from the seed give intervals 1, 6, 16, repetitions 1, 2, 3 and easiness 2.6, 2.7, 2.8 |
| Scenarios.TwoKnewItAnswers | app/api/answer/route.ts:30-98 | two "knew it" answers through the answer route on a fresh card leave one answer row and a review record at repetition 2, interval 6, due six days after the second answer |

## Left out

- HTTP, CORS, JSON encoding, Deno.serve, environment variables and the Supabase client are left out. Each handler takes the parsed body, and a body that does not parse is `None`, which gives the catch-all 500. Other thrown errors are not modelled.
- IEEE-754 doubles are left out. Easiness is exact hundredths, so drift at a .5 boundary of `interval * easiness` is not modelled. NaN easiness is not modelled either.
- UpdateSrs.Handle: a non-integer quality such as 2.5 passes the source's range check, but the model takes quality as an integer.
- UpdateSrs.Handle: answered_at is an integer instant. An unparseable date string, which makes `toISOString` throw, is not modelled.
- Calendar arithmetic is left out: `Date.setDate` in local time, time zones, daylight saving and ISO string formatting. A day is a fixed 86 400 000 ms.
- The `debug` block of the update_srs success response (index.ts:150-166) is not modelled. The response carries only the upserted row.
- Store-assigned metadata is not modelled. The upserted row is returned as written.
- Concurrency is left out. Handlers run one at a time, apart from the one interleaving of `UpdateSrs.InterleavedPair`. The same check-then-insert race in the answer route is not modelled.
- AnswerRoute.Post: the database assigns row ids. The model uses one more than the largest id in use.
- AnswerRoute.Post: an update whose id matches several rows makes the source's `.single()` fail after the write. The model returns the updated found row. This cannot happen while ids are distinct.
- AnswerRoute.Post: the model does not know of any database unique constraint on `user_answers (user_id, question_id)`. The schema is not part of this model.
- AnswerRoute.Post: the scheduling call is either unreachable or delivered to `UpdateSrs.Handle`. A response lost after delivery behaves like a delivered call, since the route ignores the answer.
- StudySelection.Earliest: the database does not fix the order among rows with equal due_at. The model takes the first in table order. Likewise, `limit(1)` on questions takes the first in table order.
- StudySelection.DueCount: `count || 0` for a null count is not modelled. Without an error the count is the number of due rows.
- The study page's UI is left out: user fetch and redirect, hint and answer toggles, `handleAnswer`, sign-out and rendering. So are the magic-link auth page, the static home page, the seed script and the type declarations.

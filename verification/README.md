# Progression, ingest and sandbox of Python Coach, in Dafny

A model of the parts of the Python Coach backend that carry invariants across files, with proofs.

- **Progression and grading.** Lessons unlock one after another; a lesson is completed when all its
  exercises are solved; nothing of that is stored. `Curriculum` models the two grouped counts and the fold,
  `Progression` what follows for a user (completed prefix, next pointer, reveal), `Grading` one request at a
  time and the progress roll-up over whole runs, `Interleaving`, `Reachable` and `Solo` any number of requests
  interleaved statement by statement, `Outcomes` how requests end, `Serialisation` how such a run compares with the
  serial one, `Completion` that a learner is never stuck, `Ties` which ties in position break sequential unlock,
  `Editing` what holds while lessons are re-ingested under requests in flight.
- **Ingest.** `Locales`, `Content` and `Ingest` model the delete-and-rebuild of a lesson over the content
  tables with their cascades, and relate it to one update of a map from slug to document; `History` follows the
  progress account through histories that mix submissions and ingests.
- **Storage.** `Storage.Store` is the imperative facade: its methods update the tables in place and are proved
  against the specifications of `Grading` and `Ingest`.
- **Sandbox.** `Sandbox` is the lifecycle of the throwaway containers, racing against the daemon and the CLI
  processes; `Channel` the marker framing of the result; `Verdict` the way from pytest reports to a status.

A table is a map from primary key to row (`Schema`). `nextId` stands for the primary-key sequences; one counter
serves all tables, since only freshness and growth of keys are used. A JSON object is its list of entries in key order.

## What the proofs assume

- PostgreSQL's default isolation, READ COMMITTED, since the engine sets none (`storage/db.py:18`). A request sees what
  is committed when its statement runs; its own rows become visible at its commit, which the route performs once at
  the end. The ORM updates only the columns that changed. A unique violation aborts the whole request. A writer of a
  progress row, or an inserter of the same pair, waits for the transaction that wrote it first.
- Interleaved runs start from an unused database (no submissions, no progress). Nobody edits the curriculum meanwhile,
  except in `Editing`. There an ingest waits while a request in flight holds the key of an exercise it replaces, as the
  foreign key of a PENDING row makes it, and a request that inserts too late violates that foreign key and aborts.
- Every request gets a listing of its own: any sequence of the published lessons sorted by position. Where positions
  tie, theorems about the fixed curriculum ask for `Curriculum.TieFree`: no two published lessons share a position at or
  below that of a lesson with exercises within reach, that is, with a lesson with exercises at every lower position.
  `Ties.ChainHoldsIffTieFree` shows that sequential unlock holds exactly then.
- The daemon makes a container only for a live CLI that has none yet, container names are unique, and a `docker rm -f`
  that can be run takes effect.
- pytest exits with 0 iff it reported on a test and no report failed; a skip or xfail is not a failure.

## Where the code falls short of its own description

- `storage/_lessons.py:133-137` orders by position alone, and 0 is the default position. With a tie, requests may be
  gated and answered under different listings. Sequential unlock breaks (`Ties.TiedPositionsBreakTheChain`), exactly
  when `Ties.ChainHoldsIffTieFree` says. The next pointer of a completed lesson may be refused, unless every lesson that
  may be listed before the next one is completed (`Progression.NextAlwaysOpensIff`), and the walk over the pointers is
  determined only by distinct positions (`Progression.WalkIsDeterminedIff`).
- `clients/sandbox.py:126-127` says no container outlives the call on every exit path. On the exception path the CLI is
  not killed, so the daemon may still create the container afterwards (`Sandbox.ExceptionCanLeak`), and a spawn that is
  interrupted never reaches the removal. `Sandbox.LeakIff` is exact for every way out, decided before the run leaves.
- `storage/_progress.py:24-43` reads and writes the row without a lock. Overlapping requests can lose an attempt and
  move `solved_at`: `Solo.OverlapLosesAnUpdate`, with the exact conditions in `Reachable.AttemptsExactIffNoLostUpdate`,
  `Reachable.SolvedAtMovesIff` and, for the whole row, `Serialisation.SerialIffNoLostUpdate`.
- `clients/sandbox_result.py:34` says `passed` is true only when every test passed. With a skip beside a test that ran,
  be it at collection, by a marker, in a fixture or in the body, pytest exits with 0 and PASSED is stored:
  `Verdict.SkippedTestPasses`, `Verdict.UnrunTestPasses`; `Verdict.VerdictIff` is exact. The recorded entries show it
  only if a body skipped (`Verdict.EntriesVerdictIff`).
- `clients/sandbox.py:172-173` takes the first of each marker. `Channel.ExtractIsHeard` says what is extracted from any
  output. A frame that is on stdout before the runner prints its own decides the result whatever the session
  (`Verdict.EarlierFrameDecides`); an end marker alone makes it ERROR (`Verdict.EarlierEndIsError`); after a begin
  marker alone the text from there on is decoded (`Verdict.EarlierBeginDecides`); a test message that quotes the end
  marker cuts the payload there (`Verdict.QuotedMarkerDecides`). Text the decoder rejects makes it ERROR.
- `controllers/submissions.py:72-75` means to single out the wall-clock kill; a traceback that mentions "wall-clock" is
  taken for one as well (`Verdict.LoadErrorReadsAsTimeout`); `Verdict.LoadErrorReadsAsTimeoutIff` is exact.
- Re-ingesting a lesson locks its successor for everyone, and the reveal then refuses solutions of exercises a user has
  solved: `Ingest.IngestLocksIff` says which locks change, `Ingest.IngestHidesSolvedIff` which solved exercises are
  refused, both exactly.

## Model

| member | source | states |
|---|---|---|
| Curriculum.OrderDeterminedIffPositionsDistinct | services/api/src/python_coach/storage/_lessons.py:126-139 | the published listing, and so every unlock flag, is a function of the database if and only if no two published lessons share a position (the query has no tie-break, and 0 is the default position) |
| Curriculum.ListingIsUnique | services/api/src/python_coach/storage/_lessons.py:126-139 | with distinct positions any two answers the query may give are the same sequence |
| Curriculum.TieFreeIffDistinct | services/api/src/python_coach/storage/_lessons.py:133-137 | distinct positions leave no tie that could matter; in a curriculum without empty lessons every tie does |
| Curriculum.SomeListing | services/api/src/python_coach/storage/_lessons.py:126-139 | the query has an answer for every database |
| Curriculum.ListingMeaning | services/api/src/python_coach/storage/_lessons.py:126-139 | every answer of the query holds exactly the lessons with is_published set, each once, by position |
| Curriculum.SomeNeighbours | services/api/src/python_coach/storage/_lessons.py:133-137 | of a tied pair, and of lessons of adjoining positions, some answer of the query lists one directly before the other |
| Curriculum.CountingMeansSolvingAll | services/api/src/python_coach/storage/_lessons.py:158-190 | the two grouped counts mean what completion means: solved never exceeds total, and `total > 0 and solved >= total` iff the lesson has an exercise and this user has solved every one, whatever other users' rows hold |
| Curriculum.JoinSize | services/api/src/python_coach/storage/_lessons.py:174-181 | the grouped join counts each solved exercise of the lesson exactly once, by the unique (user, exercise) constraint |
| Curriculum.CompletedCounts | services/api/src/python_coach/controllers/lessons.py:33-37 | a lesson missing from the totals map, or with none to solve, is never completed; any other is completed when solved reaches total |
| Curriculum.ComputeStates | services/api/src/python_coach/controllers/lessons.py:40-64 | the fold's running flag yields, for each position, unlocked iff it is the first or its predecessor is completed, with that lesson's own counts |
| Curriculum.LockMeaning | services/api/src/python_coach/controllers/submissions.py:41-45 | the gate refuses lesson k exactly when k is not first and lesson k-1 has an unsolved exercise or none at all; a lesson outside the published chain is never refused |
| Curriculum.StatesShowCounts | services/api/src/python_coach/controllers/lessons.py:40-71 | the k-th lesson state shows how many exercises the lesson has and how many of them this user has solved, 0 and 0 for a lesson without any; completed iff there is one and all are solved; unlocked iff first or its predecessor is completed |
| Curriculum.UnpublishedIsNeverLocked | services/api/src/python_coach/controllers/submissions.py:41-45 | a lesson that is not published is never locked |
| Curriculum.OpenUnderAnyListingIff | services/api/src/python_coach/controllers/lessons.py:40-64 | a lesson is open whatever listing the query returns iff every lesson that may be listed directly before it is fully solved |
| Progression.UnlockOnlyGrows | services/api/src/python_coach/controllers/lessons.py:40-71 | as long as nobody edits the curriculum, completed and unlocked lessons stay so while solved sets grow |
| Progression.SolvingKeepsChain | services/api/src/python_coach/controllers/submissions.py:41-66 | one more solved exercise in an unlocked lesson keeps 'a solved exercise has all earlier lessons completed' |
| Progression.AnyOrderAdmits | services/api/src/python_coach/controllers/submissions.py:41-45 | in a tie-free curriculum, whatever listing the gate reads, an exercise it lets through lies in a lesson that is open in every other listing, too |
| Progression.Frontier | services/api/src/python_coach/controllers/profile.py:39-59 | completed lessons are a prefix whose length is the profile's lessons_completed; lesson k is unlocked iff k <= that length; min(n, completed + 1) lessons are unlocked and at most one of them is not completed |
| Progression.ProfileMeaning | services/api/src/python_coach/controllers/profile.py:39-59 | lessons_total is the number of published lessons, lessons_completed the number of those this user has fully solved, in any database |
| Progression.NextSlug | services/api/src/python_coach/controllers/lessons.py:189-196 | the loop search returns what the first matching lesson's successor says, None for the last lesson and for a lesson not listed |
| Progression.NextSlugAt | services/api/src/python_coach/controllers/lessons.py:189-196 | with distinct lesson ids the pointer of the k-th lesson is the slug of the k+1-st, or None at the end |
| Progression.ViewOfListed | services/api/src/python_coach/controllers/lessons.py:143-186 | the view of a published lesson: refused iff it is not the first listed and its predecessor is not fully solved; else whether it is fully solved, and the slug listed next or none |
| Progression.ViewOffTheChain | services/api/src/python_coach/controllers/lessons.py:150-186 | missing iff no lesson has the slug; an unpublished lesson is read, not completed and without a next slug |
| Progression.NextSlugWalksTheCurriculum | services/api/src/python_coach/controllers/lessons.py:189-196 | with distinct positions, following the pointers alone n times from the first lesson meets exactly the first n published lessons in order, whatever listing each request gets; after the last the pointer is None |
| Progression.WalkIsDeterminedIff | services/api/src/python_coach/controllers/lessons.py:189-196 | every walk over the pointers meets the same lessons in the same order if and only if positions are distinct |
| Progression.WalkReadsTheUnlocked | services/api/src/python_coach/controllers/lessons.py:143-196 | with distinct positions, opening lesson after lesson by next_slug, lock included and each under a listing of its own, reads exactly the unlocked lessons in order - the completed ones and the one after them - and is refused at the next |
| Progression.CompletedLessonOpensNext | services/api/src/python_coach/controllers/lessons.py:150-186 | with distinct positions, when a lesson view says completed with a next slug, reading that slug is neither missing nor locked in that state or any later one, under whatever listing |
| Progression.NextAlwaysOpensIff | services/api/src/python_coach/controllers/lessons.py:150-186 | with ties, that next lesson is read in every later state and under every listing iff every lesson that may be listed directly before it is fully solved |
| Progression.RevealExactlyWhenSolved | services/api/src/python_coach/controllers/exercises.py:51-70 | while the chain holds, the solution is returned iff the exercise is solved by this user and the stored code has a character that is not white space; the lock check never fires for a solved exercise |
| Progression.RevealAnswers | services/api/src/python_coach/controllers/exercises.py:51-70 | in any database each answer has its exact condition, in the order of the guards: no such exercise, locked lesson, not solved, nothing but white space stored, the stored code |
| Progression.RowDecidesSolved | services/api/src/python_coach/storage/_progress.py:16-22 | the unique row of the pair decides whether the exercise is solved |
| Text.Find | services/api/src/python_coach/clients/sandbox.py:172-173 | str.find: the first occurrence, or -1 when there is none |
| Text.StripDropsOuterSpace | services/api/src/python_coach/clients/sandbox.py:182 | str.strip is indifferent to the newlines printed around the payload |
| Text.StripMeaning | services/api/src/python_coach/clients/sandbox.py:182 | str.strip keeps what lies between the outermost characters that are not white space |
| Text.SpaceMeaning | services/api/src/python_coach/storage/_lessons.py:154-156 | the white space characters of str.strip and str.isspace, by code point |
| Text.BlankMeaning | services/api/src/python_coach/storage/_lessons.py:154-156 | a code counts as blank iff every character of it is white space |
| Text.ContainsMeaning | services/api/src/python_coach/controllers/submissions.py:73 | the `in` test on strings: some text before and after makes up the whole |
| Grading.StatusFromResult | services/api/src/python_coach/controllers/submissions.py:69-76 | a stored status is a verdict (PASSED or FAILED) iff the run has no runner error, and is never PENDING |
| Grading.RecordRows | services/api/src/python_coach/storage/_progress.py:24-43 | the upsert creates or bumps exactly the row of its pair, leaves every other pair's row alone and keeps one row per pair |
| Grading.GradeRows | services/api/src/python_coach/controllers/submissions.py:47-66 | a graded request adds at most one verdict, to its own pair, and its own pair's row moves with it; ERROR and TIMEOUT add none and move none |
| Grading.SubmitKeepsConstraints | services/api/src/python_coach/controllers/submissions.py:24-66 | every key, reference and unique constraint survives a request, the curriculum is untouched and no stored submission is left PENDING |
| Grading.SubmitAnswers | services/api/src/python_coach/controllers/submissions.py:37-66 | not found iff there is no such exercise; forbidden iff its lesson is listed after one that is not fully solved; graded otherwise, solved iff PASSED; a refusal changes nothing |
| Grading.RollupAppend | services/api/src/python_coach/storage/_progress.py:24-43 | one incremental update of the row equals recomputing the roll-up from the longer log |
| Grading.RunsAreAccounted | services/api/src/python_coach/storage/_progress.py:24-43 | in every serial run from an unused database each pair's row is the roll-up recomputed from the log of its counted attempts: number, newest submission, first pass time, last update |
| Grading.ProgressCountsVerdicts | services/api/src/python_coach/controllers/submissions.py:47-66 | in every serial run: a row exists iff a verdict does, attempts is the number of PASSED or FAILED submissions, last_submission_id the newest of them, solved iff one is PASSED, solved_at the time of the first |
| Grading.SolveIsSticky | services/api/src/python_coach/storage/_progress.py:35-38 | no later request un-solves a row or moves its solved_at, and a run with a runner error changes no progress row |
| Grading.SubmissionIsPermanent | services/api/src/python_coach/controllers/submissions.py:79-84 | a graded submission reads back to its owner exactly as submitted and graded after any number of later requests, and to nobody else |
| Grading.SubmitSolves | services/api/src/python_coach/controllers/submissions.py:64-66 | a request adds to the solved sets exactly its own exercise for its own user, and only when it passes |
| Grading.SubmitKeepsChain | services/api/src/python_coach/controllers/submissions.py:41-66 | a serial request keeps every user's chain |
| Interleaving.GateKeepsInv | services/api/src/python_coach/controllers/submissions.py:37-45 | passing the gate, under whatever listing the query returns, records a true fact about the committed database |
| Interleaving.InsertKeepsInv | services/api/src/python_coach/storage/_submissions.py:16-24 | the PENDING row takes a key no other request and no committed row has |
| Interleaving.ReadKeepsInv | services/api/src/python_coach/storage/_progress.py:28-30 | what a request reads of its progress row stays a valid lower bound until it writes |
| Interleaving.WriteKeepsInv | services/api/src/python_coach/storage/_progress.py:32-43 | two requests never hold the same progress row, and whatever a write does keeps the system invariant |
| Interleaving.CommitKeepsOwnPair | services/api/src/python_coach/transport/rest/submissions/routes.py:82-89 | the commit keeps attempts between 1 and the number of verdicts, the last submission among them, and solved iff some verdict passed, although the row was read earlier |
| Interleaving.CommitKeepsChain | services/api/src/python_coach/transport/rest/submissions/routes.py:82-89 | the solve a commit makes visible still lies behind completed lessons, although the gate was read long before |
| Interleaving.CommitKeepsOther | services/api/src/python_coach/transport/rest/submissions/routes.py:82-89 | whatever another request still relies on (its gate, its keys, the row it read) outlives this commit |
| Interleaving.StepKeepsInv | services/api/src/python_coach/controllers/submissions.py:37-66 | every step of every request keeps the system invariant |
| Interleaving.StepIsLater | services/api/src/python_coach/controllers/submissions.py:37-66 | a step only adds solved exercises, and only a commit of a user's own request adds to that user's |
| Reachable.SolvedMeansEarlierCompleted | services/api/src/python_coach/controllers/submissions.py:37-66 | in every reachable state of any interleaving of a tie-free curriculum, an exercise of the k-th lesson of any listing solved by a user means every lesson before it there reads as completed |
| Reachable.CommittedProgress | services/api/src/python_coach/storage/_progress.py:24-43 | in every reachable state, whatever the positions: one row per pair, solved iff a committed PASSED submission exists, a row iff a committed verdict, 1 <= attempts <= number of verdicts, last submission among them, nothing committed PENDING |
| Reachable.ReachableFrontier | services/api/src/python_coach/controllers/profile.py:39-59 | the frontier (completed prefix, unlocked count, profile total) holds in every reachable state of any interleaving, under whatever listing is read |
| Reachable.ProgressOnlyGrows | services/api/src/python_coach/controllers/lessons.py:40-71 | over any continuation of any run solved, completed and unlocked only grow, and a continuation without a commit of this user leaves the solved set as it was |
| Reachable.EmptyLessonLocksTheRest | services/api/src/python_coach/controllers/lessons.py:33-64 | in every run an empty published lesson is never completed and every lesson after it in any listing is locked |
| Reachable.ReachableReveal | services/api/src/python_coach/controllers/exercises.py:51-70 | in every reachable state, under whatever listing is read, the reveal answers iff solved and more than white space is stored, and never refuses a solved exercise as locked |
| Reachable.AttemptsExactIffNoLostUpdate | services/api/src/python_coach/storage/_progress.py:28-43 | in every interleaved run attempts equals the number of verdicts if and only if no commit of the pair overwrote a counter other than the one it had read; a lost update is never made up for |
| Reachable.SolvedAtMovesIff | services/api/src/python_coach/storage/_progress.py:35-38 | a commit moves solved_at of a solved row exactly when its request read the row before the solve, passes and carries another time |
| Outcomes.SecondFirstAttemptFails | services/api/src/python_coach/storage/_progress.py:28-43 | of two first submissions of a pair that both read no row, the one that comes second never commits in any continuation, and its submission is never stored: the unique constraint fails the whole request |
| Outcomes.AttemptGoesThrough | services/api/src/python_coach/storage/_progress.py:24-43 | any other request whose row nobody holds goes through when it writes and commits: its verdict is stored, its row counts one attempt more than it had read, names the submission and time, keeps or sets the solve, and nothing else changes |
| Outcomes.UncountedGoesThrough | services/api/src/python_coach/controllers/submissions.py:59-62 | a request whose sandbox run failed commits its submission and touches no row |
| Outcomes.WaitsIff | services/api/src/python_coach/storage/_progress.py:32-43 | a write waits exactly while another request has written the row of the same pair and not ended |
| Outcomes.RequestMovesOn | services/api/src/python_coach/controllers/submissions.py:37-66 | only a request's own action moves it, on by one statement or to its end; user, exercise and code never change, and its key, its sandbox result and the row it read are carried along |
| Outcomes.FailureLeavesNoTrace | services/api/src/python_coach/transport/rest/submissions/routes.py:82-89 | a request may fail at any point before its commit; then the database is as it was, it stays failed, and its submission is never seen |
| Outcomes.EndIsFinal | services/api/src/python_coach/controllers/submissions.py:24-66 | a request that was refused, failed or has committed stays so in every continuation |
| Solo.SoloIsSubmit | services/api/src/python_coach/controllers/submissions.py:24-66 | a request that runs uninterrupted in the interleaved system does exactly what the serial request does, refusals included |
| Solo.SerialRunsEmbed | services/api/src/python_coach/controllers/submissions.py:24-66 | every serial run is an interleaved run |
| Solo.OverlapLosesAnUpdate | services/api/src/python_coach/storage/_progress.py:28-43 | for every curriculum and every open exercise there is a run of three requests after which attempts is behind the verdicts and a solved_at already set has moved |
| Serialisation.StillAccepted | services/api/src/python_coach/controllers/submissions.py:37-66 | what the gate let through when it was read, it still lets through when the request commits, in any database with the same solves |
| Serialisation.CommitKeepsRow | services/api/src/python_coach/storage/_progress.py:24-43 | a commit that overwrites the counter it read does to the row what the serial request does |
| Serialisation.SerialIffNoLostUpdate | services/api/src/python_coach/transport/rest/submissions/routes.py:82-89 | every interleaved run against the serial run of its committed requests in commit order: the same solved sets and verdict counts, and for each pair the same progress row, up to the key of the submission it points to, if and only if no update of that pair was lost |
| Ties.TiedPositionsBreakTheChain | services/api/src/python_coach/storage/_lessons.py:133-137 | any tie at or before a lesson with exercises within reach: some run solves an exercise of a lesson while one listed before it is not completed |
| Ties.ChainHoldsIffTieFree | services/api/src/python_coach/storage/_lessons.py:126-139 | sequential unlock holds, under every listing, in every reachable state of every interleaving if and only if the curriculum is tie-free; without empty lessons, if and only if positions are distinct |
| Completion.CanFinish | services/api/src/python_coach/controllers/lessons.py:40-64 | from any state with the chain, passing submissions that the gate accepts, one per unsolved exercise of the first n lessons, leave none of them unsolved and touch nothing else |
| Completion.WritersCommit | services/api/src/python_coach/transport/rest/submissions/routes.py:82-89 | from every state the requests that hold a progress row can all commit, one after the other |
| Completion.OneSolvePerCommit | services/api/src/python_coach/controllers/submissions.py:64-66 | no continuation of an interleaved run solves more exercises than it commits requests |
| Completion.CurriculumCanBeFinished | services/api/src/python_coach/controllers/lessons.py:33-64 | if every published lesson has an exercise: from every reachable state of the interleaved system, once the requests that hold a row commit, accepted passing submissions, one per exercise still unsolved, complete every published lesson, and no continuation does it with fewer commits |
| Locales.ProseRoundTrip | services/api/src/python_coach/storage/_lessons.py:45-56 | reading back the rows ingest stored, in any order, gives exactly the ingest-normalised text |
| Locales.NormaliseKeepsAuthored | services/api/src/python_coach/seed.py:37-54 | normalised prose covers both locales, keeps each authored non-empty supported text, and is empty everywhere iff every authored text was |
| Locales.NormaliseChooses | services/api/src/python_coach/seed.py:37-54 | which text each supported locale gets: its own if there is one, else the English one, else the first in key order; a bare string serves every locale |
| Locales.FillChooses | services/api/src/python_coach/storage/_lessons.py:45-56 | the same choice when stored rows are read |
| Locales.SettledIsFixpoint | services/api/src/python_coach/storage/_lessons.py:45-56 | filling a filled text changes nothing |
| Content.AppendedRows | services/api/src/python_coach/seed.py:119-128 | rows inserted under one parent read back after its earlier ones, in insertion order, and change no other parent's rows |
| Content.LessonFrame | services/api/src/python_coach/storage/_lessons.py:64-75 | a lesson's document depends only on its own row, texts, exercises and their children |
| Ingest.NormalisedIsSettled | services/api/src/python_coach/seed.py:83-108 | every well-formed document normalises to prose filled for both locales |
| Ingest.DeleteUserState | services/api/src/python_coach/storage/models/submission.py:44-70 | deleting a lesson cascades to precisely its exercises' submissions and progress; of the other rows only a reference to a deleted submission becomes null |
| Ingest.AddedReadsBack | services/api/src/python_coach/seed.py:95-128 | an exercise ingested reads back with its code fields, both texts and its test files in order |
| Ingest.AddExercisesEffect | services/api/src/python_coach/seed.py:95-128 | the ingested exercises are appended to the lesson in document order and nothing that existed changes |
| Ingest.RebuiltDoc | services/api/src/python_coach/seed.py:75-128 | a rebuilt lesson reads back as its document, with every constraint kept |
| Ingest.IngestIsMapUpdate | services/api/src/python_coach/seed.py:65-131 | against the map from slug to document, ingest sets exactly the ingested slug to the ingested document |
| Ingest.IngestedAsWritten | services/api/src/python_coach/seed.py:37-131 | from the authored document to the one read back: every field of the lesson, of each exercise and of each test file, in order, with the default of each absent key; an explicit null solution_code means none, and the legacy key counts only where the canonical one is absent |
| Ingest.IngestsAgree | services/api/src/python_coach/seed.py:65-131 | ingest is idempotent and ingests of distinct slugs commute, up to fresh keys |
| Ingest.IngestsAgreeForUsers | services/api/src/python_coach/seed.py:65-131 | ingesting a document again changes no submission, no progress row and no solved set; ingests of distinct slugs in either order keep the same ones |
| Ingest.IngestUserState | services/api/src/python_coach/seed.py:69-128 | ingest removes precisely the submissions and progress of the lesson's old exercises and leaves no dangling reference; every other row is unchanged but for a last submission of those exercises, and there is none where each row's last submission is of its own exercise |
| Ingest.IngestLocksIff | services/api/src/python_coach/seed.py:69-128 | after an ingest no user has the lesson completed; lesson j of the new listing is locked iff it directly follows the ingested one or its predecessor was not fully solved before |
| Ingest.IngestHidesSolvedIff | services/api/src/python_coach/controllers/exercises.py:51-70 | with distinct positions and the chain intact before the ingest, a solved exercise that survives it is refused as locked iff its lesson directly follows the ingested one in the new listing |
| History.SubmitKeepsOwnSubmissions | services/api/src/python_coach/storage/_progress.py:24-43 | a request keeps every row's last submission one of the row's own exercise |
| History.IngestAfterAnyRun | services/api/src/python_coach/seed.py:69-128 | in every state interleaved submissions reach, an ingest removes exactly the rows of the replaced exercises, and no last_submission_id becomes null |
| History.IngestKeepsAccount | services/api/src/python_coach/seed.py:69-128 | an ingest ends the account of the replaced exercises and leaves every other pair's account as it was |
| History.HistoriesAreAccounted | services/api/src/python_coach/storage/_progress.py:24-43 | over every serial history that mixes submissions and ingests each row is the roll-up of the attempts counted since its exercise was last replaced; attempts is the number of stored verdicts, the last submission the newest of them, solved iff one passed; nothing is left PENDING and no reference dangles |
| History.IngestInAnyHistory | services/api/src/python_coach/seed.py:69-128 | an ingest anywhere in such a history removes exactly the rows of the replaced exercises |
| Editing.EditKeepsInv | services/api/src/python_coach/seed.py:69-131 | an ingest among requests in flight keeps what each of them relies on, the unlock order apart |
| Editing.EditTakesEffectIff | services/api/src/python_coach/seed.py:69-131 | an ingest beside requests takes effect, as one update of the document map, iff no open transaction holds a submission for a replaced exercise; until then it changes nothing |
| Editing.LateInsertFails | services/api/src/python_coach/storage/_submissions.py:16-24 | a request that passed the gate and finds its exercise replaced fails at its insert and stores nothing |
| Editing.EditedRunsAreSound | services/api/src/python_coach/storage/_progress.py:24-43 | over every interleaving of requests and ingests: no reference dangles, nothing committed is PENDING, a row iff a verdict, solved iff one passed, the last submission among the verdicts; attempts is their number iff no update of the row was lost since its exercise was last replaced |
| Editing.GateVouches | services/api/src/python_coach/controllers/submissions.py:41-45 | with distinct positions, what the gate lets through has every published lesson of a lower position that was never re-ingested fully solved |
| Editing.ChainSurvivesForUntouched | services/api/src/python_coach/seed.py:69-131 | over every interleaving of requests and ingests that leave no tie, a solved exercise of a published lesson means every published lesson of a lower position that was not itself re-ingested is completed |
| Storage.Store.CreatePendingSubmission | services/api/src/python_coach/storage/_submissions.py:16-24 | inserts a PENDING row without result under a fresh key |
| Storage.Store.FinalizeSubmission | services/api/src/python_coach/storage/_submissions.py:26-38 | overwrites status and result of that row only |
| Storage.Store.GetProgress | services/api/src/python_coach/storage/_progress.py:16-22 | finds the pair's row, or None |
| Storage.Store.RecordAttempt | services/api/src/python_coach/storage/_progress.py:24-43 | in-place upsert equal to the specification whose roll-up meaning RunsAreAccounted proves |
| Storage.Store.IsLocked | services/api/src/python_coach/controllers/submissions.py:41-45 | the imperative gate decides the lock that LockMeaning characterises |
| Storage.Store.SubmitSolution | services/api/src/python_coach/controllers/submissions.py:24-66 | the imperative request has the answer and the database of the serial specification and keeps every constraint |
| Storage.Store.IngestExercise | services/api/src/python_coach/seed.py:95-128 | succeeds iff the mandatory keys are present and then writes exactly the exercise's rows |
| Storage.Store.Ingest | services/api/src/python_coach/seed.py:65-131 | all or nothing: without a mandatory key every table is as before and only keys drawn stay drawn; otherwise the slug-to-document map has exactly the normalised document set |
| Sandbox.StepKeepsInv | services/api/src/python_coach/clients/sandbox.py:117-153 | whatever the daemon, the CLI processes and the other runs do, a run at its ordinary final removal has a dead CLI, because it waited for it, and a run that waits has signalled it |
| Sandbox.NoContainerOutlivesItsRun | services/api/src/python_coach/clients/sandbox.py:126-153 | in every interleaving no live container bears the name of a cleanly returned run, and without exceptions the live containers are those of unfinished runs |
| Sandbox.CleanReturnIsFinal | services/api/src/python_coach/clients/sandbox.py:126-153 | after a normal or timed-out return whose last removal worked, no continuation ever shows a container of that name |
| Sandbox.OutputEndsTheRun | services/api/src/python_coach/clients/sandbox.py:130-153 | a communicating run returns normally by its output and the last removal iff its CLI is dead; before, there is no output to take |
| Sandbox.WallClockRemoves | services/api/src/python_coach/clients/sandbox.py:133-141 | when the wall clock fires, the removal takes the container away before the CLI is killed, and the kill only signals |
| Sandbox.StatementsInOrder | services/api/src/python_coach/clients/sandbox.py:117-153 | the statements of a run come in their order and only its own action moves it; it goes on from the wait with a dead CLI only |
| Sandbox.ExitTells | services/api/src/python_coach/clients/sandbox.py:130-153 | a run exits as timed out only if the wall clock fired while it was communicating and normally only if its output was taken; without exceptions these are equivalences |
| Sandbox.EverydayRun | services/api/src/python_coach/clients/sandbox.py:117-153 | the everyday grading, step by step: the container is made and ends, the output is taken, the run returns normally and no container is left |
| Sandbox.ExceptionsLeave | services/api/src/python_coach/clients/sandbox.py:130-153 | an exception at any await leads to the finally block, and one there leaves it, with process and container as they were |
| Sandbox.FailedSpawnLeavesNothing | services/api/src/python_coach/clients/sandbox.py:117-124 | without a docker binary the run returns at once and no container of its name ever exists |
| Sandbox.OthersUntouched | services/api/src/python_coach/clients/sandbox.py:80-90 | a run touches its own process and container only |
| Sandbox.LeakIff | services/api/src/python_coach/clients/sandbox.py:117-153 | decided before a run leaves, whichever way: a container of its name can exist after the return, at once or ever, iff an interrupted spawn had started the CLI, or the CLI is alive without its container made, which only an exception leaves behind, or the last removal does not take away one that is there |
| Sandbox.ExceptionCanLeak | services/api/src/python_coach/clients/sandbox.py:150-153 | leaving by an exception with a working removal can still leak, because the CLI is not killed on that path |
| Sandbox.FirstRemovalIsNotEnough | services/api/src/python_coach/clients/sandbox.py:133-153 | on the timeout path the daemon can create the container after the removal and even after the kill signal; the removal in the finally block takes it away |
| Sandbox.TimeoutAlwaysReturns | services/api/src/python_coach/clients/sandbox.py:133-153 | an unfinished run's next step is always enabled, a CLI already reaped included, and brings it nearer its return; with its CLI dead its output brings it to the last removal; the only thing it waits for is the death of a CLI it has signalled; nothing sets it back |
| Channel.NoOverlap | services/api/src/python_coach/clients/sandbox.py:33-34 | two marker occurrences never overlap |
| Channel.ExtractMeaning | services/api/src/python_coach/clients/sandbox.py:172-182 | nothing is extracted unless both markers occur, the first end marker not before the first begin marker; else the stripped text between them |
| Channel.FirstBegin | services/api/src/python_coach/clients/sandbox.py:172 | the first begin marker is the noise's own, else the printed one |
| Channel.FirstEnd | services/api/src/python_coach/clients/sandbox.py:173 | the first end marker is the noise's, else one in the payload, else the printed one |
| Channel.FramingRoundTrip | services/api/src/python_coach/clients/sandbox.py:172-182 | a framed payload comes back, up to outer white space, out of any noise without markers and any tail, if it has no end marker |
| Channel.FramingIff | services/api/src/python_coach/clients/sandbox.py:172-182 | unless the noise holds both markers, the payload comes back if and only if the noise holds neither and the payload no end marker |
| Channel.NoiseWithBothWins | services/api/src/python_coach/clients/sandbox.py:172-182 | if the noise holds both markers, what is extracted is what the noise alone would give |
| Channel.ExtractIsHeard | services/api/src/python_coach/clients/sandbox.py:172-182 | for every noise, payload and tail, what is extracted: the text between the first begin marker and the first end marker, in terms of where they occur in noise and payload |
| Channel.QuotedEndCuts | services/api/src/python_coach/clients/sandbox.py:172-182 | a payload that holds the end marker comes back cut off at its first occurrence |
| Verdict.Collector.LogReport | services/sandbox/runner/run_tests.py:34-52 | appends an entry for a call-phase report or a failed setup or teardown, and nothing otherwise |
| Verdict.Collector.CollectReport | services/sandbox/runner/run_tests.py:54-59 | appends the shortened error of a failed collection, and nothing otherwise |
| Verdict.Collector.Observe | services/sandbox/runner/run_tests.py:83-88 | after a session the collector holds exactly the session's entries and load errors, in order |
| Verdict.RecordedOutcome | services/sandbox/runner/run_tests.py:34-52 | what each report records, by phase and outcome: passed without message, failed for any other body, error for a failing fixture, and nothing else |
| Verdict.RecordedLoadError | services/sandbox/runner/run_tests.py:54-59 | a failed collection records the beginning of its text, any other nothing |
| Verdict.RecordedInOrder | services/sandbox/runner/run_tests.py:34-52 | entries come in the order of the reports |
| Verdict.ShortenMeaning | services/sandbox/runner/run_tests.py:61-63 | a failure text is kept up to 4000 characters and then marked as cut |
| Verdict.BuildPayload | services/sandbox/runner/run_tests.py:90-107 | load errors take priority over an empty session, and either makes the payload not passed |
| Verdict.CountPassed | services/api/src/python_coach/clients/sandbox.py:205 | the count is full iff every entry passed |
| Verdict.CountPassedMeaning | services/api/src/python_coach/clients/sandbox.py:205 | the count is the number of entries that passed, for sessions passed in part, too |
| Verdict.GreenMeaning | services/sandbox/runner/run_tests.py:34-59 | entries exist, all are passed and nothing failed to load iff some test body ran, every test body passed and no report failed |
| Verdict.StatusMeaning | services/api/src/python_coach/controllers/submissions.py:69-76 | PASSED is stored iff the exit code is 0, an entry exists and nothing failed to load; a verdict is stored iff an entry exists and nothing failed to load |
| Verdict.VerdictIff | services/sandbox/runner/run_tests.py:34-107 | given pytest's exit code, the stored PASSED means that every test passed exactly when nothing was skipped, at collection or in any phase, beside a test body that ran |
| Verdict.EntriesVerdictIff | services/sandbox/runner/run_tests.py:34-107 | PASSED goes with recorded entries that all passed exactly when no test body skipped in a session without failures |
| Verdict.SkippedTestPasses | services/sandbox/runner/run_tests.py:38-43 | a session of one test whose body skips is stored as PASSED with its entry recorded as failed |
| Verdict.UnrunTestPasses | services/sandbox/runner/run_tests.py:34-52 | a session in which a second test is skipped before its body is stored as PASSED with only passed entries |
| Verdict.CountsAddUp | services/api/src/python_coach/clients/sandbox.py:196-216 | passed and failed counts add up to the number of entries, the passed count is their number, and no failure is counted iff every entry passed |
| Verdict.StoredResult | services/api/src/python_coach/clients/sandbox.py:188-216 | what is stored of a session: the entries, passed by the exit code; or the first load error behind a fixed line; or the no-tests hint; with the beginning of stderr |
| Verdict.UnloadableIsNoAttempt | services/api/src/python_coach/controllers/submissions.py:59-62 | a session that failed to load or ran no test is stored as ERROR or TIMEOUT and changes no progress row |
| Verdict.UnreadableIsError | services/api/src/python_coach/clients/sandbox.py:174-186 | output without markers or with undecodable payload is stored as ERROR, without entries and with the beginning of stdout and stderr; a session without tests is ERROR, too |
| Verdict.WallClockIsTimeout | services/api/src/python_coach/clients/sandbox.py:143-145 | the wall-clock kill is stored as TIMEOUT, whatever the limit |
| Verdict.LoadErrorReadsAsTimeoutIff | services/api/src/python_coach/controllers/submissions.py:71-75 | a code that fails to load is stored as TIMEOUT instead of ERROR exactly when its first error text mentions "wall-clock" |
| Verdict.LoadErrorReadsAsTimeout | services/api/src/python_coach/controllers/submissions.py:71-75 | a collection that fails with the text "wall-clock" is stored as TIMEOUT |
| Verdict.EndToEnd | services/api/src/python_coach/clients/sandbox.py:170-216 | from reports through the framed output to the status: with no marker but the runner's own, for every encoding the decoder undoes, the client has the session's payload, and PASSED means every test passed exactly when nothing was skipped beside one |
| Verdict.EarlierEndIsError | services/api/src/python_coach/clients/sandbox.py:172-180 | an end marker on stdout before any begin marker: ERROR is stored, whatever the session |
| Verdict.EarlierBeginDecides | services/api/src/python_coach/clients/sandbox.py:172-186 | a begin marker alone before the runner's own: the text from there to the first end marker is decoded, and ERROR is stored if it is rejected |
| Verdict.EarlierFrameDecides | services/api/src/python_coach/clients/sandbox.py:172-182 | a complete frame on stdout before the runner's own decides the result: PASSED iff that payload says passed without a runner error, whatever the session |
| Verdict.QuotedMarkerDecides | services/api/src/python_coach/clients/sandbox.py:172-186 | a payload that quotes the end marker is decoded up to the quotation only; if that text is rejected ERROR is stored, whatever the session |

## Left out

- HTTP routing, DTO shaping, authentication, e-mail and the language-model client: copying and one-branch checks; only the single commit at the end of the submission route is kept.
- The web pages under services/api/static, the migrations, deploy scripts, settings and lesson fixtures.
- JSON text: encoding and decoding are an abstract pair in `Verdict.EndToEnd`; a decoded payload with missing fields or unknown outcomes is not modelled.
- Ingest of JSON values of the wrong type or explicit nulls (other than for solution_code): the document model has only absent or well-typed values.
- Docker flags, resource limits, file staging and permissions: only container existence, CLI liveness and the order of operations are modelled.
- The user table and created_at timestamps; durations of tests.
- Locks inside one ingest: it is one step among the requests; the statements of two ingests are not interleaved.
- Storage.Store.Restore: the cascades of a DELETE and a rollback are the database's, so they are applied as one assignment of the tables.
- The columns that name a submission's key: `Serialisation.SerialIffNoLostUpdate` compares the submissions themselves, since keys are drawn in another order than requests commit.
- Order of rows with equal positions inside a lesson: documents list exercises and test files in insertion order, which is finer than the multiset the readers can rely on.
- Text.Strip: covers the white space of str.isspace, without Unicode normalisation.

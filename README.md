# Cheer-server core in Dafny

This project models the core of a coaching back end built on Express and MySQL. Coaches and
athletes keep training programs. A program is a row in `programs`. Its exercises are rows
in `program_exercises`, called slots here. Each slot points into the exercise catalogue, and
each logged workout is a row in `training_data`. The back end also groups a flat measurement
leaderboard into per-measurement rankings and summarises an athlete's progress. Finally, it
records checkoffs: a task a coach assigns to athletes, the athletes' submissions, and the
coach's review.

The tables are modelled as Dafny maps keyed by their auto-increment ids. The operations are:

- **Programs** (`program_model.dfy`, module `ProgramModel`):
  - `buildUpdateSet` is a loop. Get, update and delete are functions over the programs map.
  - The state-changing operations are methods of the class `ProgramStore`, which holds the
    tables and their id counters. These are create, update, delete, the all-or-nothing
    create-with-exercises, and logging a workout against a slot.
  - List, search and details are read-only queries, so they are (ghost) functions. SQL
    `ORDER BY` is `Sorting.SortIds`: a sort of a finite id set by a lexicographic key, where
    rows with equal keys may come out in either order.
- **Program handlers** (`program_controller.dfy`):
  - the field allow-list `pickProgramFields` (a loop);
  - body extraction for create-with-exercises;
  - the guards of `saveWorkout`, search and details, and their mapping of errors to HTTP
    statuses.
- **Measurements** (`measurement_controller.dfy`):
  - `setNewRecord` validation and its status codes;
  - the leaderboard fold, as the method `GroupLeaderboard` with its loop invariants, proved
    equal to the fold function `GroupRows`;
  - the progress summary.
- **Exercises** (`exercise_model.dfy`, `exercise_controller.dfy`):
  - `toInt`, `toPosInt` and `escapeLike`;
  - pagination;
  - the catalogue queries, and the handlers' id and name guards.
- **Checkoffs** (`checkoff_model.dfy`):
  - the defaults and receiver rows of `create`, a two-statement insert with no transaction
    (the class `CheckoffStore`);
  - the review ordering of submissions, and the coach-scoped review update.

Supporting modules:

- `wrappers.dfy` has `Option` and `Result`.
- `http.dfy` has a reply type: a status with a value or an error.
- `js_values.dfy` covers JavaScript values as handlers see them: truthiness, `||`, `??`,
  destructuring defaults, property access that throws on null, and `String()`.
- `strings.dfy` covers JavaScript `trim` and SQL `TRIM`, ASCII `toLowerCase`, and
  `includes`.
- `sql_like.dfy` is MySQL `LIKE` with `\` as escape, compared case-insensitively.
- `schema.dfy` holds the row types and the tri-state `is_deleted` flag, where NULL and 0 both
  mean live.

Store failures are parameters of the operations that handle them. Examples: `Fault` for the
transaction, `insertError` for a workout, `dbFault` and `dbError` for handlers that map a
failure to a status. Timestamps from `NOW()` are a parameter `now`.

Where the code and its written design disagree, the model follows the code:

- **The program update guard is dead code.** The guard that should reject an update with no
  allow-listed field never fires (see Findings). `UpdateProgram` follows the code: an empty
  body on an owned live program succeeds and only bumps its update time
  (`ProgramModel.EmptyUpdateBumpsUpdatedAt`). `GuardedUpdateProgram` is the update with the
  guard that was evidently intended.
- **Program search is not wildcard-safe.** The term reaches `LIKE` unescaped, so `_` and `%`
  in a search term act as wildcards. `escapeLike` exists but nothing calls it.
  - `ProgramModel.UnderscoreSearchMatchesAnyName` shows that a search for `_` returns every
    listed program with a non-empty name.
  - Even `escapeLike` is not wildcard-safe on its own: it leaves `\` alone
    (`ExerciseModel.BackslashIsNotEscaped`).
- **The "first result" of a progress summary is the second history entry** (`history[1]`),
  not the oldest one. One entry is a 500 error, because `history[1]` is undefined (see
  Findings). `AthleteProgress` models the code as written.
- **A program without live slots lists `[null]` as its exercises, not `[]`.** This is what
  `JSON_ARRAYAGG` over a `LEFT JOIN` yields.
- **A string `receivers` on a checkoff is counted by its length, yet no receiver row is
  inserted** (`CheckoffModel.StringReceiversAreCountedNotInserted`).

## Model

| member | source | states |
|---|---|---|
| ProgramModel.PresentKeys | src/models/program.model.js:10-16 | the keys kept are exactly the allow-listed keys present in the data, never more than the allow-list, with no duplicates when the allow-list has none |
| ProgramModel.ParamsOf | src/models/program.model.js:13-15 | one parameter per kept key, in order; a null or undefined value becomes `null` instead of being skipped |
| ProgramModel.BuildUpdateSet | src/models/program.model.js:8-21 | the loop yields the SET clause and parameters of the allow-listed keys present, in allow-list order; each parameter is the key's value, or null for a nullish value; the keys kept appear in the same order as in the allow-list |
| ProgramModel.PresentKeysStep | src/models/program.model.js:12-16 | one loop step appends the key, its `= ?` assignment and its parameter exactly when the key is present, and otherwise changes nothing |
| ProgramModel.UpdateSetShape | src/models/program.model.js:18-20 | the clause always ends with `updated_at = NOW()`; the parameter count equals the number of allow-listed keys present |
| ProgramModel.AsWrittenGuardNeverFires | src/models/program.model.js:157-158 | the guard as written (one parameter and a clause with `updated_at`) is false for every input |
| ProgramModel.NoKeysPresentInEmpty | src/models/program.model.js:10-16 | an empty body contributes no key |
| ProgramModel.EmptyBodyPassesAsWrittenGuard | src/models/program.model.js:157-158 | an empty update body gets past the guard as written |
| ProgramModel.NoFieldsIffNoAllowedKey | src/models/program.model.js:157-158 | the corrected guard fires exactly when the body has no allow-listed key |
| ProgramModel.GetProgram | src/models/program.model.js:141-152 | succeeds exactly for a row whose id and owner match (untrimmed) and that is live, returning that row; otherwise "Program not found" |
| ProgramModel.UpdatedRow | src/models/program.model.js:161-164 | the updated row sets each present allow-listed column to its value (null for a nullish value), keeps every other column, the owner, the creation time and the flag, and takes `now` as its update time |
| ProgramModel.RunUpdate | src/models/program.model.js:160-165 | the UPDATE statement succeeds exactly on an owned live row, and then only that row changes, to `UpdatedRow`; otherwise "Program not found or no changes made" with nothing changed |
| ProgramModel.UpdateProgram | src/models/program.model.js:155-171 | the update as written equals the bare UPDATE statement `RunUpdate` for every body: the guard never rejects |
| ProgramModel.EmptyUpdateBumpsUpdatedAt | src/models/program.model.js:157-166 | an empty body on an owned live program succeeds and changes only that program's update time |
| ProgramModel.GuardedUpdateProgram | src/models/program.model.js:157-171 | the update with the intended guard: "No fields to update" with nothing changed when no allow-listed key is present; "not found" with nothing changed when no owned live row matches; otherwise only that row changes, to `UpdatedRow` |
| ProgramModel.GuardMattersOnlyWithoutFields | src/models/program.model.js:157-166 | the guarded and the as-written update give different results exactly when the body has no allow-listed key, and are equal otherwise |
| ProgramModel.PresentPositions | src/models/program.model.js:10-16 | every kept key sits at a strictly increasing position of the allow-list |
| ProgramModel.PresentKeysKeepOrder | src/models/program.model.js:10-16 | the kept keys are a subsequence of the allow-list, so they keep its order |
| ProgramModel.DeleteProgram | src/models/program.model.js:174-192 | a soft delete succeeds exactly on an owned live row and sets its flag to 1; a hard delete succeeds on any owned row and removes it; a failure is "Program not found" and changes nothing |
| ProgramModel.SoftDeleteIsFinal | src/models/program.model.js:176-186 | after a soft delete the program cannot be read or soft-deleted again, but a hard delete still removes it |
| ProgramModel.CreatedRow | src/models/program.model.js:105-123 | the new row has every allow-listed column, the given value unless undefined (then null), the owner, and a live flag |
| ProgramModel.BulkCreatedRow | src/models/program.model.js:206-214 | in the transactional create, a falsy column value becomes null |
| ProgramModel.SlotFor | src/models/program.model.js:227-233 | a slot belongs to the new program, is live, and has the entry's status or 0 when falsy |
| ProgramModel.SlotsFor | src/models/program.model.js:220-236 | one slot per exercise entry under consecutive fresh ids, entry j under the first id plus j |
| ProgramModel.ResolveExercise | src/models/program.model.js:426-441 | a given exercise id is used without checking the slot; otherwise the slot must exist, belong to the program and be live, and its exercise is used; else "Program exercise not found" |
| ProgramModel.LiveSlots | src/models/program.model.js:67-69 | the slots of the program that are live |
| ProgramModel.SlotOrder | src/models/program.model.js:49-69 | the live slots of a program, each once, by ascending slot id |
| ProgramModel.EntryOf | src/models/program.model.js:50-71 | a slot appears with its exercise's id and name exactly when the left join finds the exercise, and as null otherwise |
| ProgramModel.SlotEntries | src/models/program.model.js:49-71 | a program with no live slot lists `[null]`; otherwise one entry per live slot in slot order |
| ProgramModel.NewestFirst | src/models/program.model.js:87 | the sort key puts newer creation times first |
| ProgramModel.Selected | src/models/program.model.js:35-43 | a summary holds exactly the five selected columns, each as stored (NULL when never written), and never `copied_from` |
| ProgramModel.Summary | src/models/program.model.js:35-53 | a summary row: the program id, the selected columns, both timestamps and the slot entries |
| ProgramModel.SummariesOf | src/models/program.model.js:85-93 | every selected program exactly once, each with its selected columns (not `copied_from`) and exercises, newest first |
| ProgramModel.Listed | src/models/program.model.js:73-83 | a listed program is live, and its SQL-trimmed owner equals the JavaScript-trimmed user id |
| ProgramModel.ListedIds | src/models/program.model.js:73-83 | the programs whose trimmed owner matches the trimmed user id, that are live, and that pass the type filter when one is set |
| ProgramModel.ListPrograms | src/models/program.model.js:26-98 | the listed programs, each exactly once, newest first, as summaries with the selected columns and their slot entries |
| ProgramModel.AllTypesListsEveryLiveProgram | src/models/program.model.js:79-83 | with type `all` or no type, every owned live program is listed |
| ProgramModel.SearchTerm | src/models/program.model.js:260 | the term is trimmed, so trimming it again changes nothing; a null or undefined query gives the empty term |
| ProgramModel.SearchTermOfUntrimmable | src/models/program.model.js:260 | a term with no leading or trailing space is searched as it is |
| ProgramModel.UnderscoreIsItsOwnTerm | src/models/program.model.js:260 | the query `_` is searched as `_` |
| ProgramModel.SearchIds | src/models/program.model.js:303-313 | listed programs whose name is `LIKE '%term%'` |
| ProgramModel.SearchPrograms | src/models/program.model.js:257-326 | a blank trimmed term returns no program without a query; otherwise exactly the listed programs whose name matches, each once, newest first, as summaries with the selected columns |
| ProgramModel.SearchRefinesList | src/models/program.model.js:303-313 | a program is found by a search exactly when it is listed with the same type and its name matches the term |
| ProgramModel.UnderscoreSearchMatchesAnyName | src/models/program.model.js:304 | since the term is not escaped, searching `_` finds every listed program with a non-empty name |
| ProgramModel.PlainTermIsSubstringSearch | src/models/program.model.js:304 | for a term without `%`, `_` or `\` the search is a case-insensitive substring test |
| ProgramModel.HistoryIds | src/models/program.model.js:380-382 | the user's workouts on the exercise |
| ProgramModel.PastWorkouts | src/models/program.model.js:360-384 | each of the user's workouts on the exercise exactly once, newest first |
| ProgramModel.DetailOf | src/models/program.model.js:340-389 | an exercise entry carries the catalogue row and the user's past workouts on it |
| ProgramModel.DetailEntries | src/models/program.model.js:340-389 | one detail per slot entry, in slot order |
| ProgramModel.ProgramDetails | src/models/program.model.js:327-411 | the details of an owned live program, with its selected columns (not `copied_from`), both timestamps and one detail per slot entry; otherwise "Program not found" |
| ProgramModel.ProgramStore.CreateProgram | src/models/program.model.js:103-138 | inserts the new row under a fresh id, changing nothing else |
| ProgramModel.ProgramStore.UpdateProgramForUser | src/models/program.model.js:155-171 | the programs after the call and the result are those of `UpdateProgram` as written |
| ProgramModel.ProgramStore.DeleteProgramForUser | src/models/program.model.js:174-192 | the programs after the call and the result are those of `DeleteProgram` |
| ProgramModel.PendingSlots | src/models/program.model.js:220-236 | the entry loop succeeds exactly when no entry is null or undefined and no slot insert fails, and then holds exactly the slots of every entry in order |
| ProgramModel.CommitsEntryByEntry | src/models/program.model.js:196-250 | the transaction commits exactly when the program insert and every entry's slot insert succeed |
| ProgramModel.ProgramStore.CreateProgramWithExercises | src/models/program.model.js:193-255 | all or nothing: on any failure nothing is written and the error is reported; on success one program row and one slot per exercise entry are added and the total counts the entries |
| ProgramModel.ProgramStore.CreateWorkoutForExercise | src/models/program.model.js:413-471 | inserts one workout with the resolved exercise, defaulted sets and note; on a missing slot or a failed insert nothing is written |
| ProgramController.Picked | src/controllers/ProgramController.js:7-12 | exactly the allow-listed own properties of the source, their values unchanged |
| ProgramController.PickProgramFields | src/controllers/ProgramController.js:7-12 | the loop computes `Picked`; an undefined source is an empty object; a null source throws |
| ProgramController.PickedIsWhatUpdateWrites | src/controllers/ProgramController.js:61-66 | the picked fields are the columns the update assigns, nullish values as null |
| ProgramController.BodyOrEmpty | src/controllers/ProgramController.js:90 | a falsy body is replaced by an empty object |
| ProgramController.ProgramSource | src/controllers/ProgramController.js:91 | program data is `body.program` when truthy, else the body itself |
| ProgramController.ExercisesFrom | src/controllers/ProgramController.js:92-96 | `body.exercises` if an array, else `body.program.exercises` if an array, else none |
| ProgramController.FlatBodyIsItsOwnSource | src/controllers/ProgramController.js:91 | a body without `program` supplies its own fields |
| ProgramController.CreateProgramWithExercises | src/controllers/ProgramController.js:88-106 | 201 with the created program exactly when the store commits, the rows written from the extracted data; otherwise 400 with nothing written |
| ProgramController.FirstUserId | src/controllers/ProgramController.js:173 | a non-empty user id comes from a truthy auth id or body id |
| ProgramController.FirstUserIdIsTrimmed | src/controllers/ProgramController.js:173 | the user id is trimmed: trimming it again changes nothing |
| ProgramController.AuthIdTakesPrecedence | src/controllers/ProgramController.js:173-174 | the authenticated id wins over `body.user_id`; both falsy give the empty id |
| ProgramController.SlotNotFoundMapsTo404 | src/controllers/ProgramController.js:197-199 | the model's missing-slot message is recognised as a 404 |
| ProgramController.SaveWorkoutGuard | src/controllers/ProgramController.js:170-183 | an empty trimmed user id is 400 "Missing userId"; a non-array `sets` is 400; reading a null body is a 500 |
| ProgramController.SaveWorkout | src/controllers/ProgramController.js:167-203 | a rejected request writes nothing; a missing slot is 404; a failed insert is 404 or 500 by its message; success is 201 and adds exactly one workout under a fresh id: the slot, the first user id, the resolved program, the sets (default `[]`), the note (default `""`), and `now` as both times |
| ProgramController.SearchHandler | src/controllers/ProgramController.js:109-130 | a blank trimmed name is 400; a store error 500; otherwise 200 with the model's search and the raw query |
| ProgramController.MentionsNotFound | src/controllers/ProgramController.js:152 | a message that contains "not found" as written is recognised, whatever its case elsewhere; a recognised message is at least that long |
| ProgramController.ProgramNotFoundMapsTo404 | src/controllers/ProgramController.js:152-153 | "Program not found" is recognised as a 404 |
| ProgramController.DetailsHandler | src/controllers/ProgramController.js:132-165 | an empty user id or a non-numeric program id is 400; a program not visible to the user 404; a store error 500; else 200 with the details |
| MeasurementController.ErrorMessage | src/controllers/MeasurementController.js:143 | the reported error is the message, or the generic text when empty |
| MeasurementController.ValidRecord | src/controllers/MeasurementController.js:53 | a valid record has no nullish id or value; with a value of 0 it is valid exactly when both ids are truthy |
| MeasurementController.SetNewRecord | src/controllers/MeasurementController.js:47-94 | a null or undefined body throws before the `try`, so no reply is sent; otherwise invalid input is 400, a failed insert 500, no affected row 404, and the rest 201 with the inserted id |
| MeasurementController.ZeroValueIsAccepted | src/controllers/MeasurementController.js:53-57 | a value of 0 is accepted, a null value or an empty id is rejected |
| MeasurementController.Cells | src/controllers/MeasurementController.js:131-136 | one cell per row, in order |
| MeasurementController.UngroupAppend | src/controllers/MeasurementController.js:117-137 | flattening distributes over appending a group |
| MeasurementController.GroupCellsExtend | src/controllers/MeasurementController.js:131-136 | adding a ranking adds its cell at the end |
| MeasurementController.OpenFlattens | src/controllers/MeasurementController.js:119-128 | opening a group keeps the flattening equal to the rows seen |
| MeasurementController.OpenLabelled | src/controllers/MeasurementController.js:121-127 | a new group takes its name and unit from the row that opens it |
| MeasurementController.OpenKeepsRunGrouping | src/controllers/MeasurementController.js:119-128 | a row with a new measurement id opens a group and the grouping invariant holds |
| MeasurementController.OpenRankedApart | src/controllers/MeasurementController.js:119-136 | the new group starts at rank 1 and differs from the previous group's id |
| MeasurementController.ExtendFlattens | src/controllers/MeasurementController.js:131-136 | a row with the current id joins the current group and the rows are still the flattening |
| MeasurementController.ExtendRanked | src/controllers/MeasurementController.js:131-136 | the appended ranking takes the next rank, keeping ranks 1 to n |
| MeasurementController.ExtendLabelled | src/controllers/MeasurementController.js:131-136 | extending a group keeps its first row's labels |
| MeasurementController.ExtendKeepsRunGrouping | src/controllers/MeasurementController.js:117-137 | one loop step with the current id keeps the grouping invariant |
| MeasurementController.GroupRowsIsRunGrouping | src/controllers/MeasurementController.js:117-137 | the fold groups runs of equal ids: it flattens back to the rows with their best results, ranks each group 1 to n, adjacent groups differ, labels come from each group's first row |
| MeasurementController.GroupRows | src/controllers/MeasurementController.js:117-137 | the fold gives no more groups than rows, and no group exactly when there is no row |
| MeasurementController.GroupLeaderboard | src/controllers/MeasurementController.js:115-137 | the loop computes the fold and its result is a run grouping of the rows |
| MeasurementController.SplitRunsStaySplit | src/controllers/MeasurementController.js:119-128 | rows with the same id that are not adjacent end up in separate groups |
| MeasurementController.GetTeamLeaderboard | src/controllers/MeasurementController.js:95-145 | a falsy coach id is 400; a store error 500; no rows give 200 with an empty list; otherwise 200 with the run grouping |
| MeasurementController.Abs | src/controllers/MeasurementController.js:180 | a non-negative value equal to the argument or its negation |
| MeasurementController.AthleteProgress | src/controllers/MeasurementController.js:146-198 | missing ids are 400; empty history is 200 with all-null summary; one entry is 500; otherwise latest is entry 0, first is entry 1, change their absolute difference, unit from entry 0, history unchanged |
| MeasurementController.FirstResultIsSecondEntry | src/controllers/MeasurementController.js:173-193 | on a three-entry history the first result is the second entry, not the oldest |
| MeasurementController.OldestEntryProgress | src/controllers/MeasurementController.js:172-187 | the summary the code describes: first result from the oldest entry, so one entry gives no change instead of a failure |
| MeasurementController.ProgressAgreesOnTwoEntries | src/controllers/MeasurementController.js:173-180 | the as-written and intended summaries agree on every error, on no history and on exactly two entries |
| MeasurementController.SingleEntryHasNoChange | src/controllers/MeasurementController.js:175-180 | with one entry the code fails with a 500, while the intended summary reports a change of 0 |
| MeasurementController.IntendedFirstResultIsOldest | src/controllers/MeasurementController.js:174-175 | on the three-entry history the intended first result is the oldest entry |
| ExerciseModel.ToInt | src/models/exercise.model.js:6-9 | a positive number truncated, anything else the default; values between 0 and 1 give 0 |
| ExerciseModel.ToIntOfWhole | src/models/exercise.model.js:6-9 | a positive whole number is returned unchanged |
| ExerciseModel.ToIntAtLeastOne | src/models/exercise.model.js:6-9 | with a default of at least 1 the result is at least 1 exactly unless the value lies strictly between 0 and 1 |
| ExerciseModel.WildcardCount | src/models/exercise.model.js:10-13 | the number of `%` and `_`, at most the length |
| ExerciseModel.EscapeText | src/models/exercise.model.js:10-13 | the escaped length is the input length plus the number of wildcards |
| ExerciseModel.EscapeLike | src/models/exercise.model.js:10-13 | an undefined argument gives the empty pattern; otherwise the `String()` of the argument escaped, which unescapes back to it when it holds no backslash |
| ExerciseModel.UnescapeEscape | src/models/exercise.model.js:10-13 | on text without backslashes, reading the escapes back gives the input |
| ExerciseModel.EscapedTextIsLiteral | src/models/exercise.model.js:10-13 | on text without backslashes, the escaped pattern matches exactly that text |
| ExerciseModel.EscapedSearchIsSubstringSearch | src/models/exercise.model.js:10-13 | on text without backslashes, `LIKE '%escaped%'` is a substring test |
| ExerciseModel.BackslashIsNotEscaped | src/models/exercise.model.js:12 | a backslash is not escaped, so the escaped `\_` still matches `\x` |
| ExerciseModel.PageOffset | src/models/exercise.model.js:20-22 | a page from 1 up has a non-negative offset that is a multiple of the page size |
| ExerciseModel.TotalPages | src/models/exercise.model.js:48 | at least one page, enough pages for all rows, and no empty trailing page |
| ExerciseModel.RecentFirst | src/models/exercise.model.js:38 | the sort key orders by update time descending, then id descending |
| ExerciseModel.CatalogOrder | src/models/exercise.model.js:38 | every exercise exactly once in that order |
| ExerciseModel.PageOf | src/models/exercise.model.js:39-41 | at most ten rows from the offset, none past the end |
| ExerciseModel.ListAllExercises | src/models/exercise.model.js:18-54 | the page number, size, total and page count, and the page's rows in catalogue order |
| ExerciseModel.PageOfIndex | src/models/exercise.model.js:20-22 | each position lies on a page from 1 up |
| ExerciseModel.PageOfIndexExists | src/models/exercise.model.js:48 | that page is within the page count |
| ExerciseModel.OnPage | src/models/exercise.model.js:39-41 | a position inside a page's range is on that page |
| ExerciseModel.EveryExerciseOnItsPage | src/models/exercise.model.js:18-54 | every exercise appears on some page within the page count |
| ExerciseModel.SlotIdsOf | src/models/exercise.model.js:77-82 | the slot ids of the joined rows, in order |
| ExerciseModel.JoinAll | src/models/exercise.model.js:77-82 | the rows of the slots whose exercise is found, keeping their ascending order |
| ExerciseModel.ExercisesOfProgram | src/models/exercise.model.js:58-90 | the program's live slots whose exercise exists, each once, by ascending slot id |
| ExerciseModel.MatchingIds | src/models/exercise.model.js:109 | the exercises whose name is `LIKE '%term%'` |
| ExerciseModel.SearchExercises | src/models/exercise.model.js:93-118 | a blank trimmed term is the "name is required" error; otherwise exactly the matching exercises in catalogue order |
| ExerciseModel.GetExercise | src/models/exercise.model.js:122-145 | the exercise with that id, or "Exercise not found" |
| ExerciseController.ToPosInt | src/controllers/ExerciseController.js:7-10 | a positive number truncated toward zero, anything else the default |
| ExerciseController.Falsy | src/controllers/ExerciseController.js:28 | a missing id or 0 is rejected |
| ExerciseController.RequestedPage | src/controllers/ExerciseController.js:15 | a missing or invalid page is 1, a valid one is truncated, and the page is always at least 1 |
| ExerciseController.ListAllExercisesHandler | src/controllers/ExerciseController.js:14-22 | 200 with the page the query asks for |
| ExerciseController.ExercisesOfProgramHandler | src/controllers/ExerciseController.js:25-36 | a missing or non-positive program id is 400; otherwise 200 with the program's exercises |
| ExerciseController.SearchOfTrimmedTerm | src/models/exercise.model.js:95-96 | a trimmed non-blank term passes the model's own blank check and is matched as it is |
| ExerciseController.SearchHandler | src/controllers/ExerciseController.js:39-50 | a blank trimmed name is 400; a store failure 500; otherwise 200 with the trimmed query and items equal to `SearchExercises` on it, so exactly the matching exercises, in catalogue order and without duplicates |
| ExerciseController.MentionsNotFound | src/controllers/ExerciseController.js:63 | a message that contains "not found" as written is recognised, whatever its case elsewhere; a recognised message is at least that long |
| ExerciseController.ExerciseNotFoundMapsTo404 | src/controllers/ExerciseController.js:63-64 | the model's missing-row message is recognised as a 404 |
| ExerciseController.FetchFailedMapsTo500 | src/controllers/ExerciseController.js:63-66 | the model's store-failure message is not taken for a missing row |
| ExerciseController.GetByIdHandler | src/controllers/ExerciseController.js:53-70 | an invalid id is 400; a missing exercise 404; a store failure 500; otherwise 200 with the exercise |
| CheckoffModel.OrNull | src/models/checkoff.model.js:32-37 | a truthy value is kept, a falsy one becomes null |
| CheckoffModel.NewCheckoffRow | src/models/checkoff.model.js:31-38 | falsy optional fields are null, a falsy status is 0, the coach id is passed through |
| CheckoffModel.NewRowHasNoFalsyOptionals | src/models/checkoff.model.js:31-38 | no optional column is stored as an empty string, 0 or false |
| CheckoffModel.ReceiverRows | src/models/checkoff.model.js:47 | one `[checkoffId, userId]` row per receiver, in input order |
| CheckoffModel.ReceiverRowsFor | src/models/checkoff.model.js:42-49 | receiver rows only for a non-empty array of receivers |
| CheckoffModel.ReceiversCount | src/models/checkoff.model.js:54 | the count is an array's length, a string's length, or 0 for absent receivers |
| CheckoffModel.CountIsRowsInserted | src/models/checkoff.model.js:54 | for an array or absent receivers, the count is the number of receiver rows written |
| CheckoffModel.StringReceiversAreCountedNotInserted | src/models/checkoff.model.js:42-54 | a string of receivers is counted by its length but writes no receiver row |
| CheckoffModel.SubmitKeyOrder | src/models/checkoff.model.js:93-96 | the sort key orders exactly as: submitted before unsubmitted, then submitted date, then creation time |
| CheckoffModel.ReviewOrderIsTotalPreorder | src/models/checkoff.model.js:93-96 | the review order is total and transitive |
| CheckoffModel.CoachSubmissions | src/models/checkoff.model.js:91 | the coach's submissions |
| CheckoffModel.SubmissionsByCoach | src/models/checkoff.model.js:61-106 | every submission of the coach exactly once, in review order |
| CheckoffModel.SubmittedComeFirst | src/models/checkoff.model.js:94 | no unsubmitted row precedes a submitted one |
| CheckoffModel.AthleteName | src/models/checkoff.model.js:81-90 | first and last name joined by a space, missing parts as empty; a missing user or profile gives a single space |
| CheckoffModel.AthleteNameSplitsAtFirstSpace | src/models/checkoff.model.js:81 | when the first name holds no space, the name splits back into first and last name at its first space |
| CheckoffModel.Reviewed | src/models/checkoff.model.js:112-116 | the note and status set, the review date and update time now, the rest kept |
| CheckoffModel.CommentApplied | src/models/checkoff.model.js:110-118 | only the row matching both the submission id and the coach changes |
| CheckoffModel.AffectedRows | src/models/checkoff.model.js:125 | 1 exactly when the submission exists and belongs to the coach, else 0 |
| CheckoffModel.ForeignSubmissionUntouched | src/models/checkoff.model.js:117-118 | a comment on another coach's submission changes nothing and reports no row |
| CheckoffModel.CheckoffStore.Create | src/models/checkoff.model.js:5-60 | a null body throws before any write; the checkoff row is written under a fresh id; a failing receiver insert leaves it in place; success reports the id and the count |
| CheckoffModel.CheckoffStore.AddCoachComment | src/models/checkoff.model.js:109-131 | the table becomes `CommentApplied` and the result reports the affected rows; a store failure changes nothing |
| Strings.SqlTrimOfJsTrim | src/models/program.model.js:73-77 | trimming the user id in JavaScript first leaves nothing for SQL `TRIM` to remove |
| Strings.TrimIdempotent | src/controllers/ExerciseController.js:40 | trimming twice is trimming once |
| Strings.TrimEmptyIff | src/models/program.model.js:260-261 | a string trims to empty exactly when it is all white space |
| SqlLike.UnderscoreMatchesAnyNonEmpty | src/models/program.model.js:304 | `%_%` matches every non-empty text |
| SqlLike.ContainsPattern | src/models/program.model.js:304 | a pattern that encodes a text literally, wrapped in `%`, is a case-insensitive substring test |
| Sorting.SortIds | src/models/program.model.js:87 | `ORDER BY` over a row set: every row exactly once, in key order |
| Sorting.LeastExists | src/models/program.model.js:87 | every non-empty row set has a row with a least key |

## Left out

- Accounts (`src/models/account.model.js`): password hashing, tokens and id generation are
  library calls.
- Routes, the server bootstrap and the database connection test: Express wiring.
- `src/models/measurement.model.js`: a single `SELECT *`. The leaderboard and history queries
  are not part of this model; their rows are the inputs of `GetTeamLeaderboard` and
  `AthleteProgress`.
- `src/controllers/CheckOffController.js`: it only passes values through; the 0/1 status
  guard is not modelled.
- The other `ProgramController` handlers (list, create, get, update, delete): they forward
  to the model and map any error to one status.
- The exact text of results: the `JSON_ARRAYAGG` and `GROUP_CONCAT` strings,
  `group_concat_max_len`, and the order of elements inside `JSON_ARRAYAGG`. Nested results
  are sequences here.
- `NOW()`, auto-increment and logging: the clock is the parameter `now`, ids come from
  counters, and logging is dropped.
- The debug count queries of the program listing.
- Rollback of auto-increment counters: `ProgramStore.CreateProgramWithExercises` leaves the
  counters unchanged on failure, whereas InnoDB does not give back ids.
- Collation: `LIKE` compares ASCII letters case-insensitively, which assumes a `_ci`
  collation. Under that collation MySQL's `=` ignores case too, but the model compares ids
  with `=` and `TRIM` matches exactly; this is a modelling choice. Accent folding and
  trailing-space padding are not modelled.
- Number coercion: the exercise handlers (`ToPosInt`, `RequestedPage`,
  `ListAllExercisesHandler`, `ExercisesOfProgramHandler`, `GetByIdHandler`) take the result of
  `Number(...)` as a real or `None`. `ProgramController.DetailsHandler` takes it as an integer
  or `None` (NaN). `ProgramController.SaveWorkout` takes integer ids, so `Number()` of a path
  parameter that is not a number is not modelled there. Float parsing, and `Number.isFinite`
  on strings, are not modelled.
- Single-statement store failures of list, get, update, delete and create are not modelled.
  Store failures are parameters only where the code handles them: the transaction, the
  two-step checkoff insert, the review update, the workout insert, and the handlers that map
  failures to statuses.
- Locking, isolation and connection pooling.
- The wording of V8 TypeError messages.
- JavaScript numbers are integers in `JsValue`.
- Strings are sequences of characters, with no Unicode case mapping beyond ASCII.
- CheckoffModel.AffectedRows: counts matched rows (mysql2 reports found rows), not rows
  whose values changed.
- ProgramModel.ListPrograms, ProgramModel.SearchPrograms, ProgramModel.ProgramDetails: the
  embedded exercise lists are the slot entries; each aggregated past workout carries its id,
  creation and update times, note and sets, but not as JSON text.
- CheckoffModel.SubmissionsByCoach: returns submission ids in order. The joined columns are
  given by `AthleteName` and the rows themselves.

## Findings

| source | as written | input that shows it | evidently intended | confidence | as-written member | corrected member |
|---|---|---|---|---|---|---|
| src/models/program.model.js:157-158 | the "nothing to update" guard tests for exactly one parameter with a clause holding `updated_at`, but the update timestamp adds no parameter, so an empty update has zero parameters and the guard never fires | an update body `{}`: it gets past the guard and runs an UPDATE that only bumps `updated_at` | reject an update that has no allow-listed field with "No fields to update" and leave the row alone | high, not executed | ProgramModel.EmptyUpdateBumpsUpdatedAt | ProgramModel.GuardedUpdateProgram |
| src/controllers/MeasurementController.js:173-180 | the first result is read from `history[1]`, although the history is newest first and the comment beside it calls the first result the last element | a history of three entries `3294, 5999, 1000`: the first result is 5999, not 1000; a history of one entry fails with a 500 | the first result is the oldest entry, `history[history.length - 1]` | medium, not executed | MeasurementController.FirstResultIsSecondEntry | MeasurementController.OldestEntryProgress |

# FitControl adherence engine in Dafny

This project models the adherence core of the FitControl backend (an Express +
Supabase API for workout routines and diets) and proves properties of it. The
core covers:

- **The streak ("racha").** The number of consecutive scheduled days a user
  has completed, walked back from today over a 90-day window. It is computed
  in three controllers: the routine page (`getRutinasCompletasUsuario`), the
  profile (`getProfileData`) and the dashboard (`getDashboardData`). They
  differ in how they test a stored `cumplido` value (`if (x)` or
  `x === true`) and in their guards.
- **The 35-day calendar** of the routine page. Each day is `future`, `rest`,
  `completed`, `missed` or `pending`.
- **Today's trackers** (`getDietTrackerForToday`, `getRoutineTrackerForToday`):
  - `getFechaLocal`, the local date key and weekday name at a fixed UTC
    offset;
  - the diet tracker makes sure the day and each of today's scheduled meals
    has a compliance record, inserting only the missing ones, then merges the
    records onto the meals;
  - the routine tracker creates today's routine record when it has none.
- **Writing a whole routine:**
  - `crearRutinaCompleta` inserts the routine, then one day row per day of
    the body, each with its exercises;
  - `actualizarRutinaCompleta` updates by a weekday diff. It renames the
    routine, deletes the old day rows whose weekday the body dropped, then
    for each day of the body either replaces the exercises of the existing
    day of that weekday or creates a new day.
- **The defaulting of the profile and dashboard responses**
  (`unidad_peso || "kg"`, `peso_actual || null`, `cumplido || false`).

## Files and modules

- `values.dfy` (`JsValues`): column values as JavaScript sees them. It holds
  truthiness, `x || d`, `x?.f || false`, `x?.f || null`, and the `Result` a
  handler answers.
- `dates.dfy` (`Dates`):
  - day numbers (day 0 is 1970-01-01) and the weekday names;
  - the proleptic Gregorian conversion and its round trip;
  - the `YYYY-MM-DD` key with its round trip and injectivity;
  - `getFechaLocal` evaluated at an instant.
- `records.dfy` (`Records`):
  - the rows the controllers read;
  - the schedule resolver: the weekdays a routine or a diet is active on;
  - the table queries that feed a log.
- `adherence.dfy` (`Adherence`): the engine shared by the three controllers.
  - The log is `new Map(rows.map(c => [fecha, cumplido]))`, in which the last
    record for a date wins.
  - The streak is the imperative `ComputeStreak` loop, proved against the
    function `Streak`. It is then characterised without the walk, by its
    unique break point.
  - The calendar is the `BuildCalendar` loop, proved against `StatusOf`.
  - The two tests (truthy or strict) are parameters. They agree on boolean
    logs and differ on numbers.
- `rutina.dfy` (`Rutina`):
  - the routine page's streak and calendar;
  - the class `RoutineStore`, holding the three routine tables and an id
    counter. Its methods `CrearRutinaCompleta` and `ActualizarRutinaCompleta`
    are proved against specification functions of the old tables. Lemmas
    state the diff's meaning: the routine's weekdays become exactly the
    body's; other routines' days are unchanged; kept weekdays keep their ids;
    each day holds the exercise list of the body's last day of that weekday.
- `perfil.dfy` (`Perfil`) and `dashboard.dfy` (`Dashboard`): the two
  handlers, the streaks as they compute them, and lemmas relating them:
  - on boolean columns, dashboard, profile and routine page agree;
  - a numeric `1` for today earns a point on the dashboard and not on the
    profile.
- `tracker.dfy` (`Tracker`):
  - the class `ComplianceStore` with the three compliance tables. Its two
    handlers are proved equal to the pure functions `DietTrackerOf` and
    `RoutineTrackerOf` of the old tables;
  - lemmas about those functions: what each run creates and answers, that a
    second run changes nothing when the day had at most one record, and that
    with two or more day records every run inserts another (the
    `.maybeSingle()` behaviour).

The database is a set of tables held as Dafny sequences or maps. Queries are
functions over them. The clock is the model's main input:
- streaks and the calendar take `today`, a day number;
- the trackers take `nowMs`, the instant in milliseconds since the epoch.

Dates stored as `YYYY-MM-DD` strings are keyed by their day number.
`Dates.KeyOfDayInjective` shows nothing is lost by doing so.

## Model

| member | source | states |
|---|---|---|
| JsValues.TruthyIsStrictOnBooleans | controllers/perfil.controller.ts:76 | on a boolean or NULL column `if (x)` and `if (x === true)` decide alike |
| JsValues.OrDefault | controllers/perfil.controller.ts:143 | the JavaScript default `v or d` is `v` when `v` is truthy and `d` otherwise; it is truthy iff one of them is |
| JsValues.OrFalse | controllers/tracker.controller.ts:126 | `cumplido` defaulted to `false` is a truthy stored value or `false`; a result other than `false` is the stored value |
| JsValues.OrNull | controllers/perfil.controller.ts:144 | `peso_actual` defaulted to `null` is a truthy stored value or NULL; a non-NULL result is the stored value |
| Dates.WeekdayNameInjective | controllers/tracker.controller.ts:6-14 | the seven names of `diasSemanaMapa` are pairwise distinct |
| Dates.SameNameIffWeeksApart | controllers/rutina.controller.ts:66-70 | two days carry the same weekday name exactly when they are a multiple of 7 days apart |
| Dates.CivilRoundTrip | controllers/tracker.controller.ts:26-28 | the civil date of a day number (year, month, day) converts back to that day number |
| Dates.CivilInjective | controllers/tracker.controller.ts:26-28 | distinct days have distinct civil dates |
| Dates.EpochIsNewYear1970 | controllers/tracker.controller.ts:26-28 | day 0 is 1970-01-01 |
| Dates.NatToString | controllers/tracker.controller.ts:27-28 | `String(n)` is a non-empty digit string, one character exactly when `n < 10` |
| Dates.ParseIntString | controllers/tracker.controller.ts:26-33 | `String(year)` reads back to the year, negative years included |
| Dates.PadStart | controllers/tracker.controller.ts:27-28 | `padStart` yields the larger of the input length and the width |
| Dates.PadStartShape | controllers/tracker.controller.ts:27-28 | the padded string ends with the input and every character in front of it is the fill character |
| Dates.Pad2Shape | controllers/tracker.controller.ts:27-28 | `String(n).padStart(2, "0")` of a number below 100 is two digits that read back to `n` |
| Dates.DateKeyRoundTrip | controllers/tracker.controller.ts:33 | the key `${anio}-${mes}-${dia}` of a valid date reads back to that date |
| Dates.KeyOfDayInjective | controllers/rutina.controller.ts:59-61 | two days have the same key exactly when they are the same day, so logs keyed by day number hold the same records |
| Dates.DateKeyShape | controllers/tracker.controller.ts:26-33 | for four-digit years the key is `YYYY-MM-DD`: ten characters, dashes at 4 and 7, digits elsewhere, each field the date's |
| Dates.GetFechaLocal | controllers/tracker.controller.ts:19-36 | the name returned is one of the seven weekday names |
| Dates.FechaLocalShape | controllers/tracker.controller.ts:19-36 | the returned `fechaStr` is a ten-character key with a valid month and day that reads back to the shifted day's date |
| Dates.FechaLocalNextDay | controllers/tracker.controller.ts:22-30 | 24 hours later the day number is one more, the weekday is the next one and the key differs |
| Records.UnidadPeso | controllers/perfil.controller.ts:143 | the unit defaulted to "kg" is always truthy: the stored unit when it is set, "kg" otherwise |
| Records.RoutineWeekdays | controllers/rutina.controller.ts:48-50 | the active weekdays are exactly those of the routine's days; the set is empty iff there are no days |
| Records.DayIds | controllers/rutina.controller.ts:51-53 | one id per day, in order |
| Records.TruthyDayIds | controllers/perfil.controller.ts:59-61 | `.filter(Boolean)` keeps exactly the present ids, and no more of them than there are days; empty iff no day has an id |
| Records.DietWeekdays | controllers/perfil.controller.ts:101-104 | a weekday is active iff some slot on it holds at least one food |
| Records.CollectDietWeekdays | controllers/perfil.controller.ts:101-104 | the `forEach` loop builds exactly the diet's active weekdays |
| Records.EmptySlotsDoNotActivate | controllers/perfil.controller.ts:102-103 | a slot without food, added at either end, leaves the active weekdays unchanged |
| Records.SelectByDayIds | controllers/rutina.controller.ts:55-58 | `.in("id_rutina_dia_semana", ids)` returns exactly the rows of those days, none added |
| Records.SelectByDayIdsMembersOnly | controllers/perfil.controller.ts:63-66 | the query depends on the id list only through its members |
| Records.AllIdsTruthy | controllers/perfil.controller.ts:59-61 | when every id is present, filtering keeps them all |
| Records.SelectByDiet | controllers/perfil.controller.ts:106-109 | `.eq("id_dieta", id)` returns exactly this diet's rows |
| Records.RoutinePairs | controllers/rutina.controller.ts:59-61 | one `[fecha, cumplido]` pair per row, in order |
| Records.DietPairs | controllers/perfil.controller.ts:111-113 | one `[fecha, cumplido]` pair per whole-day row, in order |
| Adherence.BuildLog | controllers/rutina.controller.ts:59-61 | the log's dates are exactly the pairs' dates, and each holds the value of the last pair for it |
| Adherence.LogEntriesArePairs | controllers/rutina.controller.ts:59-61 | every entry of the log is one of the pairs |
| Adherence.BooleanPairsBooleanLog | controllers/perfil.controller.ts:68-70 | pairs with boolean or NULL values give a log with only such values |
| Adherence.ComputeStreak | controllers/rutina.controller.ts:63-74 | the counter loop with `break` returns `Streak`: today's point plus the backward walk over days 1..89 |
| Adherence.BreakExists | controllers/rutina.controller.ts:65-74 | every log has a break point: every active day after it passes, and it is an active day that fails, or the window's end |
| Adherence.BreakIsUnique | controllers/rutina.controller.ts:65-74 | the break point is unique |
| Adherence.StreakAtBreak | controllers/rutina.controller.ts:63-74 | the streak equals today's point plus the number of active weekdays strictly between the break and today |
| Adherence.StreakBounds | controllers/rutina.controller.ts:65 | the streak is at most today's point plus the active days of the window, and at most 90 |
| Adherence.StreakStopsAtMiss | controllers/rutina.controller.ts:71-72 | an active prior day that fails bounds the streak by the active days after it (plus today) |
| Adherence.AllCompletedStreak | controllers/rutina.controller.ts:63-74 | when every active prior day of the window passes, the streak counts all of them plus today's point |
| Adherence.NoActiveWeekdays | controllers/rutina.controller.ts:64 | with no active weekday only today can count, and it counts on any weekday |
| Adherence.EmptyLogStreak | controllers/rutina.controller.ts:59-61 | with no records the streak is 0 |
| Adherence.PriorRunNeedsCompletion | controllers/rutina.controller.ts:65-74 | a walk that counts anything reached a day of the window that passed |
| Adherence.StreakNeedsCompletion | controllers/rutina.controller.ts:63-74 | a positive streak means today, or some day in the 89 before it, passed its test |
| Adherence.DoneIsTruthy | controllers/rutina.controller.ts:71 | a day passing either test has a record storing a truthy value |
| Adherence.PriorRunDependsOnlyOnWindow | controllers/rutina.controller.ts:65-74 | two logs that agree on the active prior days of the window give the same walk |
| Adherence.TodayDoesNotStopWalk | controllers/rutina.controller.ts:63-65 | today's record changes only today's point, never the walk from yesterday |
| Adherence.RestDayIgnored | controllers/rutina.controller.ts:69-70 | a record on a prior rest day neither extends nor breaks the streak |
| Adherence.OutsideWindowIgnored | controllers/rutina.controller.ts:65 | records after today or 90 or more days back do not change the streak |
| Adherence.StreakMonotone | controllers/rutina.controller.ts:71-72 | completing more days never shortens the streak |
| Adherence.VariantsAgreeOnBooleanLog | controllers/dashboard.controller.ts:74-86 | on a boolean log every choice of tests for today and for the prior days gives the same streak |
| Adherence.VariantsDifferOnNumbers | controllers/dashboard.controller.ts:74 | a numeric 1 stored for today counts under `if (x)` and not under `x === true` |
| Adherence.StatusRules | controllers/rutina.controller.ts:83-92 | each calendar status is characterised on its own: future after today; rest on inactive past days; completed on `true`; missed on `false` before today; pending otherwise |
| Adherence.BuildCalendar | controllers/rutina.controller.ts:76-94 | 35 entries, oldest first ending today, each with the status of its day; never future; rest iff inactive; missed only before today |
| Adherence.CalendarAgreesWithStreak | controllers/rutina.controller.ts:65-92 | every day between the streak's break and today shows rest or completed, and the break day shows missed or pending |
| Adherence.MondayWednesdayScenario | controllers/rutina.controller.ts:63-74 | Monday/Wednesday routine, three completed days back from a Wednesday: streak 3 under every test |
| Adherence.MondayOnlyScenario | controllers/rutina.controller.ts:76-94 | Monday-only routine with `false` today and last Monday: today pending, last Monday missed, streak 0 |
| Rutina.GetRutinasCompletasUsuario | controllers/rutina.controller.ts:44-102 | without a routine with days: streak 0 and an empty calendar; otherwise the truthy/truthy streak (at most 90) of the log of all day ids, and the 35-day calendar of that log |
| Rutina.WithoutIds | controllers/rutina.controller.ts:347-353 | `.delete().in(ids)` keeps exactly the rows whose id is not listed |
| Rutina.DaysOfRoutine | controllers/rutina.controller.ts:331-334 | the routine's day rows, exactly |
| Rutina.WeekdayIds | controllers/rutina.controller.ts:337-339 | the map's weekdays are exactly the old days' weekdays, each mapped to the id of one of its rows |
| Rutina.WeekdayIdsLastWins | controllers/rutina.controller.ts:337-339 | when two old days share a weekday the later one's id wins |
| Rutina.IdsToDelete | controllers/rutina.controller.ts:343-345 | exactly the ids of old days whose weekday the body no longer has |
| Rutina.FreshDaysMembers | controllers/rutina.controller.ts:356-359 | a body day creates a day row exactly when its weekday has no existing (truthy) id |
| Rutina.CreatedDaysAt | controllers/rutina.controller.ts:274-279 | the `k`-th created day row has id `first + k` and the `k`-th weekday of the body |
| Rutina.RoutineStore.InsertRoutine | controllers/rutina.controller.ts:265-272 | a new routine row under the next id; other tables unchanged |
| Rutina.RoutineStore.UpdateRoutineName | controllers/rutina.controller.ts:324-327 | renames the routine when it exists, else changes nothing |
| Rutina.RoutineStore.InsertDay | controllers/rutina.controller.ts:275-279 | appends one day row under the next id |
| Rutina.RoutineStore.DeleteDays | controllers/rutina.controller.ts:347-353 | removes the listed day rows, keeping ids unique |
| Rutina.RoutineStore.InsertExercises | controllers/rutina.controller.ts:293-295 | appends the exercises to the day's list |
| Rutina.RoutineStore.DeleteExercisesOf | controllers/rutina.controller.ts:361-364 | removes the day's exercises |
| Rutina.RoutineStore.CreateDay | controllers/rutina.controller.ts:274-298 | a new day row and, when the list is not empty, its exercises |
| Rutina.RoutineStore.ReplaceExercises | controllers/rutina.controller.ts:359-379 | the existing day's exercises deleted, then the new list written when it is not empty |
| Rutina.RoutineStore.CrearRutinaCompleta | controllers/rutina.controller.ts:261-303 | status 201; a fresh routine id; days appended as `CreatedDays`; exercises as `AfterCreate`; the counter moved by one plus the number of days; store invariant kept |
| Rutina.RoutineStore.ActualizarRutinaCompleta | controllers/rutina.controller.ts:314-407 | 400 and nothing changed when the id does not parse; otherwise 200, the rename, the dropped weekdays deleted, fresh days created after the survivors, exercises as `AfterUpdate` |
| Rutina.RoutineStore.ApplyNewDays | controllers/rutina.controller.ts:356-403 | the loop over the body's days appends exactly the fresh days and leaves the exercises as `AfterUpdate` |
| Rutina.RoutineStore.ApplyNewDay | controllers/rutina.controller.ts:357-402 | one iteration: reuse the existing day of that weekday or create one |
| Rutina.RoutineStore.WeekdayIdsOfStore | controllers/rutina.controller.ts:337-339 | the old-day map holds ids below the counter, distinct weekdays mapping to distinct ids |
| Rutina.DeletedDays | controllers/rutina.controller.ts:343-353 | the delete removes exactly the routine's days whose weekday the body dropped; every other row stays |
| Rutina.KeptWeekdaysKeepIds | controllers/rutina.controller.ts:337-359 | a weekday in both old days and body keeps its day row under its old id |
| Rutina.UpdatedWeekdays | controllers/rutina.controller.ts:314-407 | after the update the routine's weekdays are exactly the body's, and other routines' day rows are untouched |
| Rutina.CreatedWeekdays | controllers/rutina.controller.ts:274-279 | the created routine's weekdays are exactly the body's, all its rows under the new routine |
| Rutina.CreatedExercises | controllers/rutina.controller.ts:283-298 | each created day holds exactly its own list; older days' exercises are unchanged |
| Rutina.UpdatedKeys | controllers/rutina.controller.ts:380-401 | after the update no id at or past the new counter has exercises |
| Rutina.UpdatedNewDay | controllers/rutina.controller.ts:389-401 | each day row the update creates holds exactly its body day's list |
| Rutina.UpdatedReusedDay | controllers/rutina.controller.ts:359-379 | a kept weekday's day holds the list of the body's last day with that weekday |
| Rutina.UpdatedUntouched | controllers/rutina.controller.ts:356-403 | a day neither reused nor created keeps its exercises |
| Rutina.DeleteKeepsUniqueIds | controllers/rutina.controller.ts:347-353 | deleting day rows keeps day ids unique |
| Rutina.WithoutNoIds | controllers/rutina.controller.ts:347 | deleting no ids leaves the table as it was |
| Perfil.GetProfileData | controllers/perfil.controller.ts:15-156 | 500 iff the user row is missing; otherwise the user's columns, the unit defaulted to "kg", the weight defaulted to `null`, and the two strict streaks, each at most 90 |
| Perfil.RoutineStreakSection | controllers/perfil.controller.ts:52-95 | the routine streak is the strict walk over the routine's weekdays and its truthy day ids' records when a routine with days, a truthy id and query data exist, zero otherwise, and at most 90 |
| Perfil.DietStreakSection | controllers/perfil.controller.ts:97-137 | the diet streak is the strict walk over the weekdays with food and the diet's whole-day records when a diet with slots, a slot with food and query data exist, zero otherwise, and at most 90 |
| Perfil.StrictDayFromRoutineRow | controllers/perfil.controller.ts:68-76 | a day passing `=== true` in a routine log comes from a row of that date storing `true` |
| Perfil.StrictDayFromDietRow | controllers/perfil.controller.ts:111-119 | the same for whole-day diet rows |
| Perfil.RachaRutinaNeedsRecord | controllers/perfil.controller.ts:52-95 | a positive routine streak needs a stored `true` of one of the routine's day ids, dated in the window |
| Perfil.RachaDietaNeedsRecord | controllers/perfil.controller.ts:97-137 | a positive diet streak needs a stored `true` whole-day record of this diet, dated in the window |
| Perfil.ForeignRoutineRecordIgnored | controllers/perfil.controller.ts:63-66 | a record of a day not among the routine's ids changes nothing |
| Perfil.ForeignDietRecordIgnored | controllers/perfil.controller.ts:106-109 | a whole-day record of another diet changes nothing |
| Perfil.EmptySlotIgnored | controllers/perfil.controller.ts:101-105 | a slot without food added to a diet with slots changes nothing |
| Perfil.NoTruthyIdsNoStreak | controllers/perfil.controller.ts:59-62 | a routine whose day ids are all missing has streak 0 |
| Perfil.RachaRutinaMatchesRoutinePage | controllers/perfil.controller.ts:52-95 | with all ids present and a boolean column, the profile shows the routine page's streak |
| Dashboard.GetDashboardData | controllers/dashboard.controller.ts:16-151 | 500 iff the user row is missing; otherwise the name, both streaks (truthy today, strict before, each at most 90), weights defaulted to `null` and the unit to "kg" |
| Dashboard.RoutineStreakSection | controllers/dashboard.controller.ts:52-92 | the routine streak is the walk with a truthy test today and a strict one before, when a routine, a truthy id and query data exist, zero otherwise, and at most 90 |
| Dashboard.DietStreakSection | controllers/dashboard.controller.ts:94-132 | the diet streak is the walk with a truthy test today and a strict one before, when a diet, a slot with food and query data exist, zero otherwise, and at most 90 |
| Dashboard.RoutineStreakMatchesProfile | controllers/dashboard.controller.ts:52-92 | on a boolean column the dashboard's routine streak equals the profile's, despite the different guard and today test |
| Dashboard.DietStreakMatchesProfile | controllers/dashboard.controller.ts:94-132 | the same for the diet streak |
| Dashboard.TodayTestsDiffer | controllers/dashboard.controller.ts:74 | a numeric 1 stored today gives the dashboard 1 and the profile 0 |
| Tracker.MaybeSingle | controllers/tracker.controller.ts:64-69 | `.maybeSingle()` yields a row iff exactly one matches |
| Tracker.DayRecordsOf | controllers/tracker.controller.ts:64-69 | exactly the user's day records for the date |
| Tracker.RoutineRecordsOf | controllers/tracker.controller.ts:178-183 | exactly the routine day's records for the date |
| Tracker.SelectMeals | controllers/tracker.controller.ts:86-91 | exactly the user's meal records for the date and the listed meals |
| Tracker.DayRecordsOfAppend | controllers/tracker.controller.ts:70-82 | an inserted day record joins the query exactly when it matches |
| Tracker.RoutineRecordsOfAppend | controllers/tracker.controller.ts:185-196 | an inserted routine record joins the query exactly when it matches |
| Tracker.ScheduledMeals | controllers/tracker.controller.ts:57-59 | exactly the slots on today's weekday that have an id |
| Tracker.MealIds | controllers/tracker.controller.ts:85 | one id per scheduled meal, in order |
| Tracker.MissingMealIds | controllers/tracker.controller.ts:93-106 | exactly the scheduled meals without a record; empty iff every one has a record |
| Tracker.CollectMissing | controllers/tracker.controller.ts:93-106 | the loop pushes exactly the missing meals, in order |
| Tracker.ReconcileCompletes | controllers/tracker.controller.ts:93-117 | after inserting the missing records no scheduled meal is missing one |
| Tracker.FindRecord | controllers/tracker.controller.ts:121-123 | `find` yields a record iff one matches, and it is a matching one |
| Tracker.FindRecordIsFirst | controllers/tracker.controller.ts:121-123 | the record found is the first match in table order |
| Tracker.FindRecordFirstMatch | controllers/tracker.controller.ts:121-123 | whenever row `j` is the first row for the meal, `find` answers row `j` |
| Tracker.MergeMeals | controllers/tracker.controller.ts:120-129 | one entry per scheduled meal, in order; a meal with no record gets `false` and no id; otherwise the entry takes the id of the meal's first record, its `cumplido` when truthy and `false` when not |
| Tracker.FirstDayOn | controllers/tracker.controller.ts:169-171 | none iff no day falls on today's weekday; else a day on it |
| Tracker.FirstDayOnIsFirst | controllers/tracker.controller.ts:169-171 | the day found is the first on today's weekday |
| Tracker.TodayIsFechaLocal | controllers/tracker.controller.ts:42 | the handlers' day and weekday name are `getFechaLocal()`'s fields; the key identifies that day |
| Tracker.DayStepLeavesOne | controllers/tracker.controller.ts:63-82 | with at most one day record, afterwards exactly one remains and it is the one answered |
| Tracker.DayStepOutcome | controllers/tracker.controller.ts:63-81 | with exactly one (user, date) day record it is answered and nothing is written; otherwise a record for the user, the diet and the date with `cumplido` `false` is appended under the next id and answered |
| Tracker.DietTrackerOutcome | controllers/tracker.controller.ts:38-135 | nothing scheduled: `{false, []}` and no write. Otherwise: with exactly one (user, date) day record, the day tables are unchanged and the answer carries that record's id and its `cumplido`, or `false` when that is falsy; with none or several, exactly one record (user, diet, date, `false`) is appended and answered; exactly the missing meal records are appended and none is missing after; each meal entry carries its first record's id and its `cumplido`, or `false` when that is falsy; routine records are untouched |
| Tracker.DayStepAgain | controllers/tracker.controller.ts:63-82 | a second day step finds the first run's record and writes nothing |
| Tracker.MealStepAgain | controllers/tracker.controller.ts:84-109 | a second meal step writes nothing |
| Tracker.DietTrackerIdempotent | controllers/tracker.controller.ts:38-135 | with at most one day record, a second run answers the same and writes nothing |
| Tracker.DuplicateDayRecordsGrow | controllers/tracker.controller.ts:64-70 | with two or more day records every run inserts one more |
| Tracker.RoutineTrackerOutcome | controllers/tracker.controller.ts:144-202 | no day on today's weekday: `{null, false}` and no write; a day on today's weekday is always answered, and it is the first such day. With exactly one record for it, no write, and the answer carries that record's id and its `cumplido`, or `false` when that is falsy; otherwise a `false` record is appended and its id answered with `false`; diet tables untouched |
| Tracker.RoutineTrackerIdempotent | controllers/tracker.controller.ts:144-202 | with at most one record for today's day, a second run answers the same and writes nothing |
| Tracker.ComplianceStore.EnsureDayRecord | controllers/tracker.controller.ts:63-82 | the answer and the new tables are `DayStep` of the old tables |
| Tracker.ComplianceStore.InsertMeals | controllers/tracker.controller.ts:107-109 | appends one record per id from the counter on; other tables unchanged |
| Tracker.ComplianceStore.GetDietTrackerForToday | controllers/tracker.controller.ts:38-135 | the answer and the new tables are `DietTrackerOf` of the old tables |
| Tracker.ComplianceStore.GetRoutineTrackerForToday | controllers/tracker.controller.ts:144-202 | the answer and the new tables are `RoutineTrackerOf` of the old tables |

## Left out

- Supabase, Express and the network are out of scope. Each query result is an input, or a function over tables held as sequences. Request parsing, JSON encoding and the HTTP plumbing are outside the model. The only error paths modelled are the missing user row (500) and the unparsable routine id (400).
- Database failures are not modelled. The model does not cover a failing insert, update or delete (`throw` to the catch block, 500), nor a `.single()` on an insert returning no row. A dropped write would leave state the model does not track.
- `Promise.all` and concurrent requests are not modelled. The check-then-insert of the trackers is sequential here, so the race in which two requests both insert a day record is not captured. Its effect, two records that `.maybeSingle()` no longer finds, is stated by `Tracker.DuplicateDayRecordsGrow`.
- The host clock and time zone are inputs. `today` is a day number and `nowMs` an instant.
- The source computes the date key and the weekday with different clocks:
  - the routine page builds its keys with `toISOString()` (UTC) but its weekdays with `getDay()` (local time);
  - the profile and the dashboard use local time for both;
  - `hoySinHora` and `setDate` move across months in local time.

  The model uses one day number for the key and the weekday, so a server is not modelled during the hours when its local date differs from the UTC date (six hours every evening at UTC−6).
- JavaScript `Date` range limits and millisecond overflow are not modelled: day numbers are unbounded integers.
- Row order: the database returns rows in an unspecified order. The model uses table order, which decides which record wins in `new Map(...)` and in `find` when two records share a date or a meal.
- Foreign-key cascades are not modelled. Deleting a routine day in `actualizarRutinaCompleta` does not delete its exercises or compliance records here. The model keeps them, because whether the schema cascades is not part of this model.
- The exercise table is grouped by day id (`map<int, seq<Exercise>>`), since every query and delete of that table selects by day id. Row ids of exercises are not modelled.
- A missing `ejercicios` list in a request body is modelled as the empty list. Both insert nothing.
- `parseInt(req.params.id, 10)` is an `Option<int>` input: `None` for `NaN`. Its acceptance of a numeric prefix ("12abc" as 12) is not modelled.
- The rutina page's `rutinas` list and the `rutinaActiva` echo are passed through untouched, and are not modelled. Its compliance query is modelled as a table, with a failed query (`cumplimientos || []`) as the empty table.
- The profile and dashboard compliance queries are `Option` inputs. `None` stands for a query that returned no data, which skips the streak.
- `cumplido` on an inserted meal or diet-day record, which the source leaves unset, is modelled as `false` (`Tracker.INSERT_DEFAULT`). The response shows `false` either way, because of `|| false`.
- Row ids come from one counter per store. `Rutina.RoutineStore.nextId` numbers both `rutina` and `rutina_dia_semana`, so a created routine's days are numbered from the routine's id plus one. `Tracker.Tables.nextId` numbers all three compliance tables. The database gives each table its own serial ids. The contracts that name exact ids, such as the `CreatedDays` numbering and the trackers' `t.nextId`, state them for this shared counter. The property lemmas rely only on a new id being unused in its own table and on ids being distinct, so none depends on how the ids of two tables relate.
- Dates stored as `YYYY-MM-DD` text are modelled by their day numbers. `Dates.KeyOfDayInjective` and `Tracker.TodayIsFechaLocal` show the keying is one to one.
- The tracker methods take today's day and weekday from `Tracker.Today` and `Dates.NameOfDay`, not by evaluating `Dates.GetFechaLocal`. `Tracker.TodayIsFechaLocal` proves the two agree.
- Today's point is awarded on any weekday. All three controllers test today's record before the walk and do not check that today is an active weekday, so a record on a rest day still counts one. `Adherence.NoActiveWeekdays` states this.
- The other controllers are out of scope: authentication, exercise and muscle catalogues, progress, energy expenditure, notifications and the CRUD handlers of single rows. So are the routes, `app.ts`, `server.ts` and the email service.
- Extra columns (`...comida` spreads, nested `ejercicio(*)` joins) are carried as the datatype fields the core reads. Other columns are not modelled.

# Smart scheduler: request building, conflict resolution and GA scoring in Dafny

This project models the core of a student timetable planner. The core has three parts:

- **The browser form** (`SchedulerPage.js`). It keeps the study information, a 7 x 3 free-time grid, the selected subjects and the constraint switches. It derives a 1..10 priority for each subject from its position and its retake flag. It builds the request (subjects with priorities, free slot tokens such as `T2_Sáng`, constraint switches). It groups the optimizer's answer into a day-by-period table and shows the credit status and the shortfall warning.
- **The schedule handler** (`main.py`, `handle_schedule`). It turns submitted subjects into entries with a server-side priority. Then it repeatedly takes the first conflicting pair (overlapping dates and overlapping hours), keeps one entry by a four-level tie-break, and replaces the other by a catalog alternative or drops it. Finally it lists the available slots first and the unavailable ones after, for the optimizer.
- **The genetic optimizer's deterministic parts** (`scheduler_ga.py`):
  - the penalty of an individual, one gene (a slot index) per subject;
  - individual creation;
  - one-point crossover;
  - mutation of one gene in place;
  - decoding of the best individual.

Modules:

| file | module | contents |
|---|---|---|
| base.dfy | `Base` | Option, substring search, `split(sep)[0]`, distinctness |
| codes.dfy | `Codes` | the `-G` group suffix of session codes |
| clock.dfy | `Clock` | `HH:MM` times as minutes; text order agrees with minute order |
| slots.dfy | `Slots` | days, periods, slot tokens, the server's list of 21 slots |
| selection.dfy | `Selection` | subject payloads, toggling with de-duplication, reordering, priorities |
| credits.dfy | `Credits` | `parseInt`, the max/min credit band, credit status, post-response warning |
| freetime.dfy | `FreeTime` | the free-time grid and the slot-token list built from it |
| form.dfy | `Form` | the form as a class whose handlers update its fields; request assembly |
| schedule_view.dfy | `ScheduleView` | grouping the answer into table cells |
| conflicts.dfy | `Conflicts` | entries, the overlap test, the conflict scan, the keep rule, alternatives |
| resolution.dfy | `Resolution` | entry building, the resolution loop, slot partition, the handler up to the optimizer |
| fitness.dfy | `Fitness` | the seven penalty rules, the scoring loops, what a zero penalty means |
| operators.dfy | `Operators` | creation, crossover, mutation, decoding, the server's slot list |

Modelling choices:

- Times are minutes since midnight. Dates are day numbers, and a date that does not parse is `None`.
- An empty optional text is `""`.
- Randomness, the catalog database and the current date are parameters.
- The request schema has no `code` field for a subject. So the handler's `getattr(..., "code", "")` is always empty and alternatives are never looked up for a client request. `Resolution.ClientEntriesHaveNoAlternatives` states this, and `Resolution.PrepareSchedule` relies on it.
- Priority counts down from 10 at the first position: a selection `[A, B, C]` with no retakes gets `[10, 9, 8]` (`Selection.ThreeRegularSubjects`).

## Model

| member | source | states |
|---|---|---|
| Codes.StripGroup | smart-scheduler-ui/src/pages/SchedulerPage.js:501-502 | the original code is the prefix before the first `-G`; the whole code when there is none |
| Codes.StripGroupHasNoMarker | smart-scheduler-ui/src/pages/SchedulerPage.js:506 | a stripped code contains no `-G` |
| Codes.StripGroupIdempotent | smart-scheduler-ui/src/pages/SchedulerPage.js:556-559 | stripping twice equals stripping once |
| Codes.StripGroupOfSessionCode | smart-scheduler-api/main.py:905-908 | a session code `X-G<group>` strips back to `X` when `X` has no `-G` |
| Clock.ClockOrderAgrees | smart-scheduler-api/main.py:773 | comparing zero-padded `HH:MM` texts orders times exactly as minutes |
| Clock.ClockTextInjective | smart-scheduler-api/main.py:938-943 | two times have the same `HH:MM` text only if they are equal |
| Slots.SlotName | smart-scheduler-ui/src/pages/SchedulerPage.js:572-575 | a slot token is the day tag, `_`, then the period label |
| Slots.SlotNameInjective | smart-scheduler-ui/src/pages/SchedulerPage.js:857 | distinct cells have distinct tokens |
| Slots.DayPrefixOfSlot | smart-scheduler-api/genetic_algorithm/scheduler_ga.py:68-69 | `split('_')[0]` of a token gives back its day tag |
| Slots.AllSlotsByDay | smart-scheduler-api/main.py:984-992 | the server's written-out slot list is the grid read day by day, morning to evening |
| Slots.SlotNameListed | smart-scheduler-api/main.py:984-992 | every cell's token is in the server's slot list |
| Selection.BuildSubjectPayload | smart-scheduler-ui/src/pages/SchedulerPage.js:463-497 | with a session: its name as display name, its department as instructor, its times with defaults `07:00` and `11:30`, its dates with the today..today+90 window as defaults; without one: the course's name, code, department, credits (default `3`), the default times and the window; the day in both cases |
| Selection.ChosenSession | smart-scheduler-ui/src/pages/SchedulerPage.js:527-543 | the first session is used when the lookup returns one; a failed or empty lookup falls back to the course |
| Selection.CourseOriginalCode | smart-scheduler-ui/src/pages/SchedulerPage.js:501-502 | the metadata's original code when present, else the stripped code |
| Selection.UnmatchedMembers | smart-scheduler-ui/src/pages/SchedulerPage.js:513-517 | the filter keeps exactly the items that match the course by none of the three code tests; with no match it changes nothing |
| Selection.UnmatchedCounts | smart-scheduler-ui/src/pages/SchedulerPage.js:513-517 | every item that does not match is kept as often as it occurs |
| Selection.UnmatchedShrinks | smart-scheduler-ui/src/pages/SchedulerPage.js:505-517 | when the find succeeds the filter removes at least one item |
| Selection.UnmatchedUnselected | smart-scheduler-ui/src/pages/SchedulerPage.js:505-517 | after the filter the find would no longer succeed |
| Selection.Toggle | smart-scheduler-ui/src/pages/SchedulerPage.js:499-553 | a selected course is removed completely; otherwise one subject is appended, with the retake flag of the active tab |
| Selection.ToggleKeepsUnique | smart-scheduler-ui/src/pages/SchedulerPage.js:505-509 | with a consistent catalog, toggling never creates two subjects with the same original code |
| Selection.ToggleTwiceRestores | smart-scheduler-ui/src/pages/SchedulerPage.js:499-553 | adding a course and toggling it again restores the previous selection |
| Selection.Move | smart-scheduler-ui/src/pages/SchedulerPage.js:448-457 | an out-of-range target changes nothing; otherwise the entry lands at the target and the list is a permutation of the old one |
| Selection.MoveByOneSwaps | smart-scheduler-ui/src/pages/SchedulerPage.js:448-457 | a move by one position swaps two neighbours |
| Selection.Priority | smart-scheduler-ui/src/pages/SchedulerPage.js:443-446 | priority is in 1..10; `10 - index` for a regular subject up to the floor 1; a retake gets 2 more, capped at 10 |
| Selection.PriorityNonIncreasing | smart-scheduler-ui/src/pages/SchedulerPage.js:443-446 | priority never grows with the position |
| Selection.RetakeNeverLower | smart-scheduler-ui/src/pages/SchedulerPage.js:445 | a retake never gets a lower priority than a regular subject at the same position |
| Selection.PriorityFollowsPosition | smart-scheduler-ui/src/pages/SchedulerPage.js:579-581 | with equal retake flags, reordering leaves the priority list unchanged: priority follows position |
| Selection.ThreeRegularSubjects | smart-scheduler-ui/src/pages/SchedulerPage.js:443-446 | three regular subjects get 10, 9 and 8 |
| Credits.ParseIntOfDecimalText | smart-scheduler-ui/src/pages/SchedulerPage.js:438 | `parseInt` reads back a decimal number followed by any non-digit text |
| Credits.ParseInt | smart-scheduler-ui/src/pages/SchedulerPage.js:438 | a number is read only from text that holds a digit, and a negative one only from text that holds a minus sign |
| Credits.MinCreditsFor | smart-scheduler-ui/src/pages/SchedulerPage.js:440 | the minimum is the largest m with 3m <= 2·max |
| Credits.AfterMaxCreditsInput | smart-scheduler-ui/src/pages/SchedulerPage.js:433-441 | empty input clears both fields; unparsable or negative input changes nothing; otherwise max := n and min := floor(2n/3) |
| Credits.MaxCreditsInputKeepsBand | smart-scheduler-ui/src/pages/SchedulerPage.js:433-441 | the minimum always follows the maximum after any input |
| Credits.EighteenGivesTwelve | smart-scheduler-ui/src/pages/SchedulerPage.js:440 | typing 18 sets the band to 12..18 |
| Credits.Status | smart-scheduler-ui/src/pages/SchedulerPage.js:745-751 | the total sums `credits` or 0; low iff under the minimum; high iff a positive maximum is exceeded; shortfall and excess add up |
| Credits.NeverLowAndHigh | smart-scheduler-ui/src/pages/SchedulerPage.js:750-751 | under a consistent band a selection is never both low and high |
| Credits.ThreeSubjectsUnderTwelve | smart-scheduler-ui/src/pages/SchedulerPage.js:745-751 | three 3-credit subjects under the 12..18 band are low by 3 and not high |
| Credits.Scheduled | smart-scheduler-ui/src/pages/SchedulerPage.js:941 | keeps exactly the subjects not named in the conflict report |
| Credits.ScheduledCreditsAtMostTotal | smart-scheduler-ui/src/pages/SchedulerPage.js:941-942 | dropping subjects never raises the credit total |
| Credits.WarningNeedsADrop | smart-scheduler-ui/src/pages/SchedulerPage.js:938-945 | a selection that was not low shows the warning only if some subject was dropped |
| Credits.ShowsCreditWarning | smart-scheduler-ui/src/pages/SchedulerPage.js:940-945 | the warning shows exactly when the subjects left after the drops would get the "missing N credits" status |
| Credits.DroppedSubjectTriggersWarning | smart-scheduler-ui/src/pages/SchedulerPage.js:938-945 | under the band 5..8 that typing 8 sets, two 3-credit subjects pass before submission (neither low nor high), and dropping one shows the warning |
| FreeTime.DefaultGrid | smart-scheduler-ui/src/pages/SchedulerPage.js:17-25 | all 21 cells exist and none is free |
| FreeTime.Flip | smart-scheduler-ui/src/pages/SchedulerPage.js:459-461 | exactly one cell is negated; every other cell is kept |
| FreeTime.FlipTwice | smart-scheduler-ui/src/pages/SchedulerPage.js:459-461 | flipping a cell twice restores the grid |
| FreeTime.BuildSlots | smart-scheduler-ui/src/pages/SchedulerPage.js:571-577 | the nested loops produce the day-major, period-minor token list of free cells |
| FreeTime.FreeSlotsMembers | smart-scheduler-ui/src/pages/SchedulerPage.js:575 | a cell's token is listed iff the cell is free, and every listed token is a free cell's |
| FreeTime.FreeSlotsDistinct | smart-scheduler-ui/src/pages/SchedulerPage.js:573-577 | no token is listed twice |
| FreeTime.FullWeekIsAllSlots | smart-scheduler-ui/src/pages/SchedulerPage.js:571-577 | an all-free grid yields exactly the server's list of 21 slots |
| FreeTime.AllSlotsDistinct | smart-scheduler-api/main.py:984-992 | the server's 21 slots are pairwise distinct |
| FreeTime.NoFreeCellsNoSlots | smart-scheduler-ui/src/pages/SchedulerPage.js:571-577 | the default grid yields no tokens |
| FreeTime.TwoFreeCells | smart-scheduler-ui/src/pages/SchedulerPage.js:571-577 | Monday morning and Wednesday afternoon free yield `["T2_Sáng", "T4_Chiều"]` |
| FreeTime.FlipTogglesToken | smart-scheduler-ui/src/pages/SchedulerPage.js:459-461 | flipping a cell adds or removes exactly its own token |
| Form.Ranked | smart-scheduler-ui/src/pages/SchedulerPage.js:579-581 | every subject is submitted in order with the priority of its position |
| Form.SchedulerForm.constructor | smart-scheduler-ui/src/pages/SchedulerPage.js:346-353 | empty study info, empty grid, no subjects, the current tab, switches on/on/off/off |
| Form.SchedulerForm.SetStudyText | smart-scheduler-ui/src/pages/SchedulerPage.js:431 | only the named text field changes |
| Form.SchedulerForm.SetMaxCredits | smart-scheduler-ui/src/pages/SchedulerPage.js:433-441 | the study info becomes the input's outcome; the band stays consistent; nothing else changes |
| Form.SchedulerForm.SelectTab | smart-scheduler-ui/src/pages/SchedulerPage.js:698-701 | only the active tab changes |
| Form.SchedulerForm.SetConstraints | smart-scheduler-ui/src/pages/SchedulerPage.js:808-811 | only the constraint switches change |
| Form.SchedulerForm.MoveSubject | smart-scheduler-ui/src/pages/SchedulerPage.js:448-457 | the selection becomes the moved list; nothing else changes |
| Form.SchedulerForm.ToggleFreeTime | smart-scheduler-ui/src/pages/SchedulerPage.js:459-461 | the grid is flipped at one cell and its token toggles in the slot list |
| Form.SchedulerForm.ToggleSubject | smart-scheduler-ui/src/pages/SchedulerPage.js:499-553 | the selection becomes the toggled list and keeps unique original codes |
| Form.SchedulerForm.Generate | smart-scheduler-ui/src/pages/SchedulerPage.js:566-587 | nothing is submitted for an empty selection; otherwise ranked subjects and one distinct token per free cell |
| ScheduleView.GroupByCell | smart-scheduler-ui/src/pages/SchedulerPage.js:836-840 | the map's keys are exactly the answer's times, and each key holds its items in answer order |
| ScheduleView.CellShowsBucket | smart-scheduler-ui/src/pages/SchedulerPage.js:856-858 | every cell, with or without a key, shows exactly the items placed in it |
| ScheduleView.BucketMembers | smart-scheduler-ui/src/pages/SchedulerPage.js:838-839 | a cell holds an item iff the item has that time |
| ScheduleView.BucketSplit | smart-scheduler-ui/src/pages/SchedulerPage.js:837-840 | one cell's items and the other items together are the whole answer |
| Conflicts.CalcPriority | smart-scheduler-api/main.py:736-740 | the server adds 2 for a retake and caps at 10, never lowering a priority |
| Conflicts.DatesOverlapIsIntersection | smart-scheduler-api/main.py:767 | the two-sided start test is interval intersection |
| Conflicts.Conflict | smart-scheduler-api/main.py:767-773 | two entries conflict when their dates and their hours overlap, tested in either order |
| Conflicts.ConflictSymmetric | smart-scheduler-api/main.py:767-773 | the conflict test does not depend on the order of the pair |
| Conflicts.ConflictReflexive | smart-scheduler-api/main.py:767-773 | a proper entry conflicts with itself |
| Conflicts.FindConflicts | smart-scheduler-api/main.py:760-775 | the scan lists exactly the conflicting index pairs i < j, in scan order |
| Conflicts.FirstPairIsSmallest | smart-scheduler-api/main.py:872-876 | the first pair of the scan is the smallest conflicting pair |
| Conflicts.EmptyScanIsConflictFree | smart-scheduler-api/main.py:872-874 | the scan is empty iff no two entries conflict |
| Conflicts.KeepsFirst | smart-scheduler-api/main.py:878-899 | the kept entry never has the lower priority |
| Conflicts.RetakeWinsPriorityTie | smart-scheduler-api/main.py:886-889 | on equal priority a retake is kept over a regular subject, whichever comes first |
| Conflicts.StartDateDecidesLastTie | smart-scheduler-api/main.py:896-899 | when priority, retake flag and submission index tie, the first entry is kept iff it starts no later |
| Conflicts.KeptEntryIndependentOfOrder | smart-scheduler-api/main.py:878-899 | unless all four keys tie, the same entry is kept whichever comes first |
| Conflicts.KeepsFirstMonotone | smart-scheduler-api/main.py:879-880 | raising the kept entry's priority keeps it kept |
| Conflicts.EarlierSubmissionWinsTies | smart-scheduler-api/main.py:891-894 | on equal priority and retake flag the earlier submission is kept |
| Conflicts.PeriodOf | smart-scheduler-api/main.py:936-944 | morning iff 07:00..11:30, afternoon iff 12:30..17:00, else evening |
| Conflicts.PeriodOfAgreesWithText | smart-scheduler-api/main.py:938-943 | the minute ranges agree with the server's text comparisons |
| Conflicts.AsEntry | smart-scheduler-api/main.py:814-822 | an alternative keeps the replaced entry's priority, retake flag and index |
| Conflicts.Usable | smart-scheduler-api/main.py:824-857 | a candidate, carrying the replaced entry's priority, is usable iff it clashes neither with the kept entry nor with any active entry of another code |
| Conflicts.UsableCandidates | smart-scheduler-api/main.py:824-857 | keeps exactly the candidates clear of the kept entry and of every active entry with another code |
| Conflicts.ChooseCandidate | smart-scheduler-api/main.py:921-951 | the first candidate whose slot was requested, else the first candidate |
| Resolution.BuildEntries | smart-scheduler-api/main.py:742-755 | fails iff some date does not parse; otherwise one entry per subject in order, with the server priority |
| Resolution.Resolve | smart-scheduler-api/main.py:861-974 | every entry ends active or removed; input that is not empty keeps one; each removal conflicted with a kept entry that wins the keep rule against it; without alternatives the survivors are conflict-free and nothing is lost |
| Resolution.Without | smart-scheduler-api/main.py:995 | keeps exactly the grid slots that were not requested, never more than the grid |
| Resolution.PartitionSlots | smart-scheduler-api/main.py:994-996 | available is the request, or all 21 slots; unavailable is the rest of the grid; the optimizer gets available then unavailable |
| Resolution.OrderedIsPermutation | smart-scheduler-api/main.py:994-996 | for a distinct request within the grid, the optimizer's slots are the 21 slots, each once |
| Resolution.ClientSlotsCoverGrid | smart-scheduler-api/main.py:994-996 | for the list the form sends, the optimizer's slots are the 21 slots, each once |
| Resolution.PrepareSchedule | smart-scheduler-api/main.py:724-996 | fails with 500 iff there are no subjects or a bad date; otherwise a non-empty conflict-free list, every subject kept or reported, and the slot partition |
| Resolution.ClientEntriesHaveNoAlternatives | smart-scheduler-api/main.py:902-910 | subjects as the schema delivers them never trigger an alternative lookup |
| Fitness.CollisionAt | smart-scheduler-api/genetic_algorithm/scheduler_ga.py:31-47 | a subject costs nothing iff its slot is not taken earlier, else 1000 or 1500 |
| Fitness.DayOrder | smart-scheduler-api/genetic_algorithm/scheduler_ga.py:75-79 | the counted days, each once, in order of first use |
| Fitness.MaxOver | smart-scheduler-api/genetic_algorithm/scheduler_ga.py:82 | the result is one of the counts and no count exceeds it |
| Fitness.MinOver | smart-scheduler-api/genetic_algorithm/scheduler_ga.py:83 | the result is one of the counts and no count is below it |
| Fitness.CountDays | smart-scheduler-api/genetic_algorithm/scheduler_ga.py:75-79 | the loop builds the day-to-count dictionary and its keys in order of first use |
| Fitness.Score | smart-scheduler-api/genetic_algorithm/scheduler_ga.py:27-128 | with priorities of at most 10, the penalty is at least -170 per subject (only the preferred-day and retake-morning bonuses are negative), and a shared slot adds at least 1000 |
| Fitness.ScoreTermsBounded | smart-scheduler-api/genetic_algorithm/scheduler_ga.py:31-98 | the collision, neighbour, balance, afternoon and Saturday rules are never negative, and a shared slot costs at least 1000 |
| Fitness.PriorityTermsBounded | smart-scheduler-api/genetic_algorithm/scheduler_ga.py:50-126 | with priorities of at most 10 the forbidden-slot rule is never negative and the per-subject rule loses at most 170 per subject |
| Fitness.CalculateFitness | smart-scheduler-api/genetic_algorithm/scheduler_ga.py:27-128 | the loops compute the sum of the seven rules, each only when its switch is on |
| Fitness.CollisionFreeIffDistinct | smart-scheduler-api/genetic_algorithm/scheduler_ga.py:31-47 | the collision rule is 0 iff all genes differ, else at least 1000 |
| Fitness.ForbiddenFreeIffRespected | smart-scheduler-api/genetic_algorithm/scheduler_ga.py:50-60 | with priorities up to 10, each violation costs at least 250, and the rule is 0 iff no subject sits in a forbidden slot |
| Fitness.BalanceZeroIffEven | smart-scheduler-api/genetic_algorithm/scheduler_ga.py:74-84 | the balance rule is 0 iff every used day has the same count |
| Fitness.SaturdayFreeIffNoT7 | smart-scheduler-api/genetic_algorithm/scheduler_ga.py:94-98 | the Saturday rule is 0 iff no slot name contains `T7` |
| Fitness.UnavailablePenaltyIffPastAvailable | smart-scheduler-api/genetic_algorithm/scheduler_ga.py:104-112 | with available slots first, the unavailable penalty is 0 iff every gene points into them; each other gene costs at least 550 |
| Operators.CreateIndividual | smart-scheduler-api/genetic_algorithm/scheduler_ga.py:23-24 | one gene per subject within the slot range; fails iff there are subjects but no slots |
| Operators.CreatedIsIndividual | smart-scheduler-api/genetic_algorithm/scheduler_ga.py:23-24 | a created individual is one the scoring accepts |
| Operators.Crossover | smart-scheduler-api/genetic_algorithm/scheduler_ga.py:138-142 | each child takes one parent's genes before the cut and the other's after it |
| Operators.CrossoverUndone | smart-scheduler-api/genetic_algorithm/scheduler_ga.py:140-141 | crossing the children again at the same cut gives the parents back |
| Operators.CrossoverKeepsGenes | smart-scheduler-api/genetic_algorithm/scheduler_ga.py:140-141 | the children together hold the parents' genes, and are individuals |
| Operators.AsWrittenPointRange | smart-scheduler-api/genetic_algorithm/scheduler_ga.py:139 | the cut is drawn from 1..n-1, which is empty for n <= 1 |
| Operators.PointRange | smart-scheduler-api/genetic_algorithm/scheduler_ga.py:139 | the corrected range is never empty for n >= 1 and equals the written one for n >= 2 |
| Operators.PointRangeIsValidCut | smart-scheduler-api/genetic_algorithm/scheduler_ga.py:138-142 | every corrected cut lies in 1..n; for one subject the children are copies of the parents |
| Operators.ScoreOfOneGene | smart-scheduler-api/genetic_algorithm/scheduler_ga.py:27-128 | with one subject, no forbidden slots, no morning preference and no Saturdays, only the Saturday and per-subject rules cost anything |
| Operators.EveningGeneScore | smart-scheduler-api/genetic_algorithm/scheduler_ga.py:123-124 | one regular subject with only Monday evening free scores 80 in that slot |
| Operators.OtherGeneScore | smart-scheduler-api/genetic_algorithm/scheduler_ga.py:104-112 | every other slot of that subject costs at least 550 |
| Operators.EveningOnlySubjectReachesEmptyCrossover | smart-scheduler-api/genetic_algorithm/scheduler_ga.py:123-139 | with only `T2_Tối` free, one regular subject's best score is 80, never 0, and the written cut range is then empty |
| Operators.SingleRetakeSubjectReachesEmptyCrossover | smart-scheduler-api/genetic_algorithm/scheduler_ga.py:125-126 | one retake subject in a morning slot scores -20, not 0, and the written cut range is then empty |
| Operators.Mutated | smart-scheduler-api/genetic_algorithm/scheduler_ga.py:145-150 | under the 0.1 rate the drawn gene gets the drawn slot; no other gene changes |
| Operators.MutatedKeepsIndividual | smart-scheduler-api/genetic_algorithm/scheduler_ga.py:145-150 | a mutated individual is still an individual, with at most one gene changed |
| Operators.Mutate | smart-scheduler-api/genetic_algorithm/scheduler_ga.py:145-150 | the list is updated in place to the mutated individual |
| Operators.DecodeResult | smart-scheduler-api/genetic_algorithm/scheduler_ga.py:200-209 | one placement per subject, in order, at its gene's slot |
| Operators.NoCollisionNoSharedCell | smart-scheduler-api/genetic_algorithm/scheduler_ga.py:200-209 | with distinct slot names, a result free of collision penalty puts no two subjects in one cell |
| Operators.ServerSlotsAreAvailableFirst | smart-scheduler-api/main.py:994-1024 | the handler's slot list puts available slots first, keeps them apart from the unavailable ones, and is never empty |

## Left out

- The generation loop `run_ga` (population of 100, 200 generations, elitism) and tournament `selection` are left out. They are random search over the modelled operators. Only their stop test on a best score of exactly 0 appears, in the Finding.
- The catalog database is a parameter: one answer per loop iteration (`answers`). This covers the alternative-session query and the per-alternative lookup of the day, with default `T2`.
- Date parsing (`strptime`) and the browser's current date are parameters: a date that does not parse is `None`, and the default date window is given.
- HTTP, authentication, saving the schedule, the chatbot, the admin and home pages, PDF/Excel export and all rendering are left out. This includes the progress bar's floating-point percentage and the per-period clock labels.
- The response enrichment after the optimizer (copying instructor, dates and priority by subject name) and the `is_retake || false` copy in the client are left out. They copy records and decide nothing.
- A pending session lookup for a course that was toggled off meanwhile is left out: the browser's asynchronous interleaving is not modelled, and each toggle is one atomic step.
- The course list search filter and the loading and error flags of the form are left out.
- `Resolution.Resolve`: the conflict-free and conservation guarantees are stated only without alternatives. That is the only case a client request reaches. With alternatives the loop can stop at its iteration cap with conflicts left.
- `Fitness.CalculateFitness`: `available_slots` is read by the source and never used, so it is not a field of the model.

## Findings

| source | as written | input that shows it | evidently intended | confidence | as-written member | corrected member |
|---|---|---|---|---|---|---|
| smart-scheduler-api/genetic_algorithm/scheduler_ga.py:139 | the crossover cut is drawn with `randint(1, num_subjects - 1)`, an empty range when one subject is left | a form request with one regular subject and only Monday evening (`T2_Tối`) free: no individual scores 0 (the best scores 80; one retake subject in a morning slot likewise scores -20), so the search reaches crossover, `randint(1, 0)` raises, and the handler answers 500 | a single subject should be schedulable; the cut range should admit n = 1 (the cut 1, whose children are copies of the parents) | high, not executed | Operators.EveningOnlySubjectReachesEmptyCrossover | Operators.PointRange |

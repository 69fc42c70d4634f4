# Clinical scheduling core, modelled in Dafny

This project models the scheduling engine of a clinical rota application:
`ClinicalScheduler`, which fills a schedule period with assignments, and
`SwapSuggestionEngine`, which proposes shift swaps (both in
`lib/scheduling/algorithm.ts`).

A scheduler is built from a team id, a period id and optional overrides of the
hard-constraint defaults: at most 7 consecutive days, at most 1 weekend-day
assignment (a Saturday or a Sunday, each counted separately) per calendar
month, and 12 rest hours. `generateSchedule` works in five steps:

- It expands the period and the team's services into required slots. Every day of the period is included, both end dates too. A service gets one slot per required person on each day it runs.
- It orders the slots by difficulty. The priority is 1, plus 2 on a weekend, plus 1 for a call service. The sort is stable.
- It walks the slots greedily. For each slot it looks at every team member:
  - the member needs a matching availability entry that is not `unavailable`;
  - the member must pass the consecutive-days, weekends-per-month and rest-period checks;
  - the member is then scored by preference type, entry priority, fairness, weekend days off and preferred services.
- The best-scoring candidate gets the slot; on a tie, the earliest in the roster wins. A slot with no candidate is reported as unassigned, with a warning.
- Finally it computes the mean satisfaction of the assignments.

`suggestSwaps` looks up an assignment. It lists the other users' scheduled
assignments in the same period as two-way swap suggestions, most compatible
first. The three-way list is always empty.

Modules, one per part of the program:

| file | module | models |
|---|---|---|
| `wrappers.dfy` | `Wrappers` | `Option` and `Result` |
| `calendar.dfy` | `Calendar` | dates as day numbers, `getDay`, `getMonth`/`getFullYear`, `isHoliday` |
| `schema.dfy` | `Schema` | the tables and enumerations the scheduler reads and writes |
| `stable_sort.dfy` | `StableSort` | `Array.prototype.sort` with a descending numeric comparator (stable), on arrays and as a function |
| `config.dfy` | `Config` | `SchedulingConstraints` and the constructor |
| `slot_generator.dfy` | `SlotGenerator` | `generateRequiredSlots`, `shouldServiceRun`, `calculateSlotPriority`, `prioritizeSlots` |
| `constraint_checker.dfy` | `ConstraintChecker` | `checkConstraints` and the three constraint checks |
| `assignment_scorer.dfy` | `AssignmentScorer` | `calculateAssignmentScore` |
| `allocator.dfy` | `Allocator` | `findBestAssignment`, `generateSchedule`, `optimizeAssignments`, `calculateSatisfactionScore` |
| `schedule_properties.dfy` | `ScheduleProperties` | what a generated schedule guarantees |
| `schedule_examples.dfy` | `ScheduleExamples` | a worked schedule |
| `swap_suggester.dfy` | `SwapSuggester` | `SwapSuggestionEngine` |

Dates are whole days counted from 1970-01-01. Day 0 is a Thursday, so
`DayOfWeek(d) == (d + 4) % 7`, with 0 meaning Sunday, as `getDay` returns it.
Month and year come from the civil calendar. Database reads become the fields
of an `Inputs` value.

Every loop of the source is a Dafny `method`, proved equal to a function that
specifies it. The properties are then proved as lemmas about those functions.
All three in-place sorts (of the slots, of the candidates and of the swap
suggestions) are one stable insertion sort on an `array`
(`StableSort.SortInPlace`). It is proved to compute `SortDesc`. `SortDesc` is in
turn proved to be a permutation, non-increasing, and stable on equal keys.

A missing schedule period makes `generateSchedule` read `startDate` of
`undefined` and throw. The model returns `Failure(PeriodNotFound)`.

Behaviour the proofs bring out:

- The consecutive-days check scans at most `max - 1` days on each side. So it
  misses a run lying wholly before or after the new date (for example,
  assignments on days 8 and 9, a new date of 10, and a maximum of 2). This is
  shown by `ConstraintChecker.ConsecutiveCheckMissesOneSidedRun`. Inside
  `checkConstraints`, the rest-period check rejects each such case anyway, so
  the combined decision equals a full-run check
  (`ConstraintChecker.RejectionMatchesFullRunCheck`).
- No check compares the new date with the user's assignments on the same date.
  A service that needs two people can therefore be given twice to the same
  person on one day (`ScheduleExamples.SameDayDoubleBooking`).
- Because no user is given two new assignments on adjacent days, nor a new
  assignment next to an existing one, no run of working days through a new
  assignment's day is longer than one day
  (`ScheduleProperties.ScheduleRunsWithinLimit`).

## Model

| member | source | states |
|---|---|---|
| `Config.NewClinicalScheduler` | lib/scheduling/algorithm.ts:38-49 | without overrides the constraints are the defaults 7, 1, 12, 0.4 and 0.6; with overrides, each of the five keys takes the caller's value when supplied and keeps its default otherwise |
| `SlotGenerator.CalculateSlotPriority` | lib/scheduling/algorithm.ts:209-222 | priority is 1, plus 2 on a weekend, plus 1 for a call service (no day is a holiday); it lies in 1..4 |
| `Calendar.IsHoliday` | lib/scheduling/algorithm.ts:203-207 | no day is a holiday |
| `SlotGenerator.ShouldServiceRunApplies` | lib/scheduling/algorithm.ts:188-201 | on a date's own weekend flag, a service runs exactly when it is a weekday service on a weekday, a weekend service on a weekend, or a call service; a holiday service never runs |
| `SlotGenerator.GenerateRequiredSlots` | lib/scheduling/algorithm.ts:156-186 | the nested date/service/copy loops produce exactly `RequiredSlots`: day by day from start to end date, service by service |
| `SlotGenerator.AppendDaySlots` | lib/scheduling/algorithm.ts:165-182 | one date's pass over the services appends that date's slots, service by service |
| `SlotGenerator.AppendServiceSlots` | lib/scheduling/algorithm.ts:165-181 | one service's turn on a date appends that service's slots for the date, or nothing when it does not run that day |
| `SlotGenerator.AppendCopies` | lib/scheduling/algorithm.ts:170-180 | the copy loop appends `minStaffRequired` copies of the slot, or none when that is not positive |
| `SlotGenerator.RequiredSlotsShape` | lib/scheduling/algorithm.ts:161-179 | every slot's date lies in the period, its weekday/weekend/priority fields agree with its date and service type, and the slots come out in date order |
| `SlotGenerator.RequiredSlotsOnDate` | lib/scheduling/algorithm.ts:161-183 | restricted to one date, the slots are that date's service slots in service order inside the period, and none outside it |
| `SlotGenerator.RequiredSlotsPerService` | lib/scheduling/algorithm.ts:161-201 | with distinct service ids, a service has exactly `minStaffRequired` slots (none if that is not positive) on each period date its type applies to, and none on the others |
| `SlotGenerator.PrioritizeSlots` | lib/scheduling/algorithm.ts:224-226 | the array is sorted in place into `SortDesc` by priority |
| `SlotGenerator.PrioritizedSlotsOrder` | lib/scheduling/algorithm.ts:224-226 | the prioritised slots are a permutation of the generated ones, in non-increasing priority, and slots of equal priority keep their generated order |
| `StableSort.SortInPlace` | lib/scheduling/algorithm.ts:224-226 | the in-place sort leaves the array equal to `SortDesc` of its old contents |
| `StableSort.SortDescCorrect` | lib/scheduling/algorithm.ts:224-226 | the sort is a permutation, non-increasing in the key, and keeps the input order among equal keys |
| `StableSort.SortDescHeadIsFirstMax` | lib/scheduling/algorithm.ts:288-290 | the head of the sorted sequence is the first element with the largest key |
| `ConstraintChecker.UserAssignments` | lib/scheduling/algorithm.ts:314-315 | an assignment belongs to a user's list exactly when it is in the combined list and has that user's id |
| `ConstraintChecker.EffectiveMaxConsecutive` | lib/scheduling/algorithm.ts:318 | the user's consecutive-day limit applies when present and non-zero; otherwise the scheduler's limit does |
| `ConstraintChecker.EffectiveMaxWeekends` | lib/scheduling/algorithm.ts:325 | the user's weekend limit applies when present and non-zero; otherwise the scheduler's limit does |
| `ConstraintChecker.WouldViolateConsecutiveDays` | lib/scheduling/algorithm.ts:339-374 | the two bounded scans report a violation exactly when 1 plus the occupied days directly before and after (at most max-1 each way) exceeds the maximum |
| `ConstraintChecker.DaysBeforeCovers` | lib/scheduling/algorithm.ts:347-358 | the backward count reaches k exactly when k is within the scan limit and each of the k days before the date is occupied |
| `ConstraintChecker.DaysAfterCovers` | lib/scheduling/algorithm.ts:360-371 | the forward count reaches k exactly when k is within the scan limit and each of the k days after the date is occupied |
| `ConstraintChecker.FullScanDecidesRun` | lib/scheduling/algorithm.ts:339-374 | an unbounded scan decides whether a run of more than max days through the new date would form |
| `ConstraintChecker.ConsecutiveCheckIsSound` | lib/scheduling/algorithm.ts:339-374 | whenever the bounded check reports a violation, a run of more than max consecutive days really would form |
| `ConstraintChecker.ConsecutiveCheckMissesOneSidedRun` | lib/scheduling/algorithm.ts:347-373 | with days 8 and 9 taken, a new date of 10 and a maximum of 2, the check passes although three days in a row would result |
| `ConstraintChecker.ConsecutiveViolationImpliesRestViolation` | lib/scheduling/algorithm.ts:339-409 | for a maximum of at least 1, a consecutive-days violation implies an assignment on the day before or after |
| `ConstraintChecker.RejectionMatchesFullRunCheck` | lib/scheduling/algorithm.ts:317-334 | the consecutive and rest checks together reject exactly what a full-run check and the rest check reject |
| `ConstraintChecker.WeekendsInMonthSameMonth` | lib/scheduling/algorithm.ts:381-393 | the weekend count depends only on the month and year of the new date |
| `ConstraintChecker.WeekendsInMonthAppend` | lib/scheduling/algorithm.ts:385-391 | the weekend count of a concatenation is the sum of the counts |
| `ConstraintChecker.MonthWeekendAssignments` | lib/scheduling/algorithm.ts:385-391 | the filter keeps exactly the assignments on a Saturday or Sunday in the month and year of the new date |
| `ConstraintChecker.WeekendsInMonthIsFilterLength` | lib/scheduling/algorithm.ts:385-393 | the weekend count is the length of that filtered list |
| `ConstraintChecker.WouldExceedWeekendsPerMonthIff` | lib/scheduling/algorithm.ts:376-394 | the weekend check fires exactly when the filtered list holds at least the maximum number of assignments |
| `ConstraintChecker.RestPeriodOverBothLists` | lib/scheduling/algorithm.ts:396-409 | on the user's share of the current and existing assignments, the rest check fires exactly when an assignment of that user in either list falls on the day before or the day after the slot |
| `ConstraintChecker.CheckConstraints` | lib/scheduling/algorithm.ts:306-337 | the violation messages, in order, are those of the consecutive, weekend (weekend slots only) and rest checks that fail |
| `ConstraintChecker.ViolationsEmptyIff` | lib/scheduling/algorithm.ts:306-337 | there are no violations exactly when the consecutive count is within the limit, a weekend slot stays below the weekend limit, and the user has nothing the day before or after |
| `AssignmentScorer.NatToDecimal` | lib/scheduling/algorithm.ts:448 | `toString` of a natural number is a non-empty string of digits |
| `AssignmentScorer.DecimalStringRoundTrip` | lib/scheduling/algorithm.ts:448 | parsing the decimal string of a service id gives the id back |
| `AssignmentScorer.DecimalStringInjective` | lib/scheduling/algorithm.ts:448 | distinct service ids have distinct strings, so a preferred-services entry names one service |
| `AssignmentScorer.BaseScore` | lib/scheduling/algorithm.ts:420-433 | the base score is one of 100, 50, 10 or 25 |
| `AssignmentScorer.CalculateAssignmentScore` | lib/scheduling/algorithm.ts:411-453 | the score is the base score plus the priority term, less 5 per assignment the user holds in the run, give or take at most 20 off and 30 on for days off and preferred services |
| `AssignmentScorer.ScorePriorityTerm` | lib/scheduling/algorithm.ts:435-436 | each point of entry priority adds 10; a missing priority and a priority of 0 both count as 3 |
| `AssignmentScorer.ScoreWeekendDayOffPenalty` | lib/scheduling/algorithm.ts:442-445 | on a weekend slot, the weekend only costs 20 points, and only when the slot's weekday is one of the user's preferred days off |
| `AssignmentScorer.ScorePreferenceOrder` | lib/scheduling/algorithm.ts:420-433 | other things equal, `prefer` scores 50 above `available`, which scores 40 above `emergency_only` |
| `AssignmentScorer.ScoreFairnessPenalty` | lib/scheduling/algorithm.ts:438-440 | each extra current assignment of the user costs 5 points; other users' assignments change nothing |
| `AssignmentScorer.ScoreWeekdayIgnoresDaysOff` | lib/scheduling/algorithm.ts:442-445 | on a weekday slot the preferred days off do not affect the score |
| `Allocator.FindAvailability` | lib/scheduling/algorithm.ts:243-247 | a found entry is in the list and matches the user, service and date; nothing is found exactly when no entry matches |
| `Allocator.FindPreferences` | lib/scheduling/algorithm.ts:259 | a found record is in the list and is the user's; nothing is found exactly when the user has no record |
| `Allocator.FindAvailabilityFirst` | lib/scheduling/algorithm.ts:243-247 | the entry found is the first matching one in the list |
| `Allocator.FindPreferencesFirst` | lib/scheduling/algorithm.ts:259 | the record found is the user's first one in the list |
| `Allocator.CandidateOptions` | lib/scheduling/algorithm.ts:239-281 | one outcome per team member, in roster order, each that member's candidacy |
| `Allocator.EvaluateMember` | lib/scheduling/algorithm.ts:239-281 | one member's turn of the candidate loop yields exactly that member's candidacy |
| `Allocator.BestCandidate` | lib/scheduling/algorithm.ts:287-290 | copying the candidates into an array, sorting it in place and taking the head gives the head of `SortDesc` by score |
| `Allocator.FindBestAssignment` | lib/scheduling/algorithm.ts:228-304 | the candidate loop, array sort and head selection compute `BestAssignment` |
| `ScheduleProperties.PresentEmptyIff` | lib/scheduling/algorithm.ts:283-285 | there are no candidates exactly when no member qualifies |
| `ScheduleProperties.UserCandidateEligibility` | lib/scheduling/algorithm.ts:239-281 | a member is a candidate exactly when they have a matching entry that is not `unavailable` and pass the consecutive, weekend and rest checks; the candidate carries the member's score and entry |
| `ScheduleProperties.BestAssignmentChoice` | lib/scheduling/algorithm.ts:228-304 | there is no assignment exactly when no member qualifies; otherwise it goes to a qualifying member whose score is the highest and strictly above every earlier member's, and it is built from that candidate |
| `ScheduleProperties.BestAssignmentEligible` | lib/scheduling/algorithm.ts:228-304 | the chosen user is on the roster, has a usable entry, has no violations, and the assignment records the score |
| `ScheduleProperties.BestAssignmentAdmissible` | lib/scheduling/algorithm.ts:292-303 | the new assignment has id 0, the scheduler's period, status scheduled, no assigner, and the slot's service, date and call flag |
| `ScheduleProperties.RunAdmissible` | lib/scheduling/algorithm.ts:72-92 | every assignment of the loop was admissible given those before it, and matches a slot's service, date and call flag |
| `ScheduleProperties.RunPartition` | lib/scheduling/algorithm.ts:72-92 | each slot yields either one assignment or one unassigned entry plus one warning, and together they are a permutation of the slots |
| `ScheduleProperties.ScheduleCoversRequiredSlots` | lib/scheduling/algorithm.ts:51-106 | assignments plus unassigned slots number the required slots and are, by service and date, a permutation of them; there is one warning per unassigned slot |
| `ScheduleProperties.ScheduleRespectsConstraints` | lib/scheduling/algorithm.ts:51-106 | every assignment lies in the period and was admissible when made (usable entry, within the consecutive limit, no assignment of the user the day before or after); no user has two assignments on adjacent days, or one next to an existing assignment; in each month where the pass gave a user weekend work, the user's new and existing weekend assignments stay within their weekend limit |
| `ScheduleProperties.NewDayRunWithinLimit` | lib/scheduling/algorithm.ts:339-409 | when no new assignment neighbours another new or existing one of the same user, no run through a new assignment's day exceeds a limit of one day or more |
| `ScheduleProperties.ScheduleRunsWithinLimit` | lib/scheduling/algorithm.ts:51-106 | in a generated schedule, no run of a user's working days through a new assignment's day, existing assignments included, exceeds any limit of at least one day |
| `ScheduleProperties.SatisfactionScoreRange` | lib/scheduling/algorithm.ts:461-492 | the satisfaction score lies in 0..100 and is 0 for an empty schedule |
| `ScheduleProperties.SatisfactionAtLeast25` | lib/scheduling/algorithm.ts:461-492 | when every assignment has a usable entry, the mean is at least 25 |
| `ScheduleProperties.GeneratedSatisfactionAtLeast25` | lib/scheduling/algorithm.ts:94-98 | a generated non-empty schedule scores at least 25 |
| `Allocator.OptimizeAssignments` | lib/scheduling/algorithm.ts:455-459 | the optimisation step returns the assignments unchanged |
| `Allocator.CalculateSatisfactionScore` | lib/scheduling/algorithm.ts:461-492 | the loop computes the mean of 100/75/25/0 per assignment by its matching entry, or 0 without assignments |
| `Allocator.Schedule` | lib/scheduling/algorithm.ts:51-106 | the result is a failure exactly when the period row is missing |
| `Allocator.PrioritizedSlots` | lib/scheduling/algorithm.ts:61-69 | generating the slots and sorting them in place gives `SortedSlots` |
| `Allocator.ProcessSlot` | lib/scheduling/algorithm.ts:72-92 | one turn of the slot loop appends the assignment found, or one unassigned entry and one warning |
| `Allocator.GenerateSchedule` | lib/scheduling/algorithm.ts:51-106 | the slot generation, array sort and assignment loop compute `Schedule` |
| `ScheduleExamples.SameDayDoubleBooking` | lib/scheduling/algorithm.ts:165-181 | a one-day period with a two-person service and one available member gives that member both copies of the slot |
| `ScheduleExamples.ExampleEligible` | lib/scheduling/algorithm.ts:228-304 | in that example the only member is chosen for the slot whatever they already hold on the same day |
| `SwapSuggester.FindAssignment` | lib/scheduling/algorithm.ts:508-516 | a found assignment is in the table with the requested id; nothing is found exactly when no row has it |
| `SwapSuggester.TwoWayCandidates` | lib/scheduling/algorithm.ts:544-558 | each suggestion targets a queried assignment of another user, names that user, and carries the pair's compatibility |
| `SwapSuggester.FindThreeWaySwaps` | lib/scheduling/algorithm.ts:563-567 | the three-way list is empty |
| `SwapSuggester.CanUsersSwap` | lib/scheduling/algorithm.ts:569-573 | every pair of users may swap |
| `SwapSuggester.FindTwoWaySwaps` | lib/scheduling/algorithm.ts:527-561 | the loop over the query and the array sort compute `TwoWaySwaps` |
| `SwapSuggester.SuggestSwaps` | lib/scheduling/algorithm.ts:503-525 | the lookup and the two searches compute `Suggestions` |
| `SwapSuggester.CandidateTargets` | lib/scheduling/algorithm.ts:529-547 | filtering by the query then skipping the requester's own assignments targets exactly the same-period scheduled assignments of other users, in table order |
| `SwapSuggester.SuggestionsCorrect` | lib/scheduling/algorithm.ts:503-561 | an unknown id gives two empty lists; otherwise the two-way targets are a permutation of other users' scheduled same-period assignments, each names its owner and carries its compatibility, in non-increasing compatibility; the three-way list is empty |
| `SwapSuggester.SuggestionsTiesKeepQueryOrder` | lib/scheduling/algorithm.ts:560 | suggestions of equal compatibility keep their query order |
| `SwapSuggester.SwapTargetsMembers` | lib/scheduling/algorithm.ts:536-547 | an assignment is a swap target exactly when it is in the table, in the original's period, scheduled and owned by another user |

## Left out

- Database reads (`getSchedulePeriod`, `getTeamServices`, `getTeamMembers`, `getUserAvailability`, `getUserPreferences`, `getExistingAssignments`, the swap queries): their results are the fields of `Inputs` and the `table` parameter. The joins are assumed to keep every row.
- Asynchrony: every `await` is modelled as a plain call.
- Time zones and `Date` parsing: a date is a day number, and `toISOString().split('T')[0]` is the identity on it.
- `assignedAt: new Date()`: the clock is not modelled.
- The note text ``Auto-assigned with score: ${score.toFixed(2)}``: it is modelled as `AutoAssigned(score)`.
- Warning strings: they are the datatype `UnableToAssign(serviceName, date)`, not formatted text.
- `calculateSwapCompatibility` returns `Math.random() * 100`: the compatibility is a function parameter of the swap engine.
- `targetUser` in a swap suggestion: the joined `users` row is represented by its id, `targetUserId`.
- The `violations` field of a candidate: it is always empty when a candidate is recorded, so it is not stored.
- `minStaffRequired` is nullable: the model takes an `int`. A null behaves like 0 in the copy loop, which `Copies` already gives for every non-positive value.
- `fairnessWeight`, `preferenceWeight` and `minRestHoursBetweenShifts`: they are stored by the constructor, but no computation reads them.
- `teamId` of both classes: it is only used by the database reads.
- The `userPrefs` parameter of `calculateSatisfactionScore`: it is not used.
- `isHoliday` always returns false. So `Holiday` services never run and the holiday priority term never applies; the model keeps this.
- `shouldServiceRun`'s `default` branch: it is unreachable, because `ServiceType` is a closed enumeration.
- The route handlers, the seed script, the UI components and the remaining schema tables: they are not part of this model.
- ScheduleProperties.ScheduleRespectsConstraints: the weekend cap is stated for the generated assignments, counted on top of each user's existing ones. The consecutive-days limit is bounded for every run through a new assignment's day (`ScheduleRunsWithinLimit`); runs made only of existing assignments are not bounded, because the pass does not re-check them.
- Override values of the constructor are taken to be integers, neither `null` nor fractional. A `null` value would replace the default with `null`, which the `Option` of each key cannot express. A fractional cap such as `maxConsecutiveDays: 2.5` would make the consecutive scan look 2 days each way and reject from a count of 3, a combination no integer cap gives; the list of messages `checkConstraints` returns could then differ from the model's. The choice of candidate would not: for a cap of at least 1 any consecutive violation is also a rest violation, and a fractional weekend cap acts as its ceiling.
- The `status` column of assignments is nullable, but the model's `status` always holds a value. A row with a null status never matches the swap query's `status = 'scheduled'` filter; the model has no such row.

# Project-tracking dashboard: a verified model of its core

The dashboard tracks IT projects. Each project has seven weighted stages
(Concept, Business case approval, …, Go-Live and support). Each stage has a
status, an owner, planned and actual dates and remarks. The project also
carries its business-case documents and an audit log of every edit. This
project models the logic at the centre of the dashboard and proves what that
logic promises:

- **Phase-date allocator** (`calculatePhaseDates`, `validateDateRange`):
  splits an inclusive day range into consecutive stage ranges in proportion
  to the stage weights. It is a method with loops, proved against a
  day-level specification (`DateCalculator`).
- **Edit form** (`EditStatusModal`):
  - the pending change list and its upsert and revert rules;
  - the weight guard;
  - the save-time merge that builds the audit records;
  - the five-milestone split of the Development stage;
  - the date display helpers.

  The session is a class with the initial snapshot, the working snapshot,
  the pending list and the milestone notes as fields (`EditSession`,
  `ChangeLog`, `Milestones`).
- **Status and progress**: the weighted completion percentage, the
  "k/n Completed" summary, the stage-status and priority enums, and the
  overall-status precedence (`ProjectModel`, `ProjectTable`).
- **Landing page**: the dashboard filters, the counts, 10-per-page
  pagination and the page-button window (`LandingPage`).
- **Department page**: projects counted per trimmed (department, owner)
  pair, then emitted as sorted rows (`DepartmentDetails`, `Sorting`).
- **Backend routes**:
  - project numbering (`ProjectIds`);
  - status defaulting, the default stage template, optional-field removal
    the partial PATCH update and the schema check of `save()` on both
    routes (`ProjectRoutes`);
  - the stored project as a class whose methods apply a PATCH and an upload
    (`ProjectRoutes.ProjectDocument`);
  - the audit-log mapping in both directions (`ActivityLog`);
  - upload file names and the business-case list merge (`BusinessCases`).

Modelling choices:

- Dates are integer day numbers (`Dates`). Stage date fields stay strings,
  as in the source.
- Weights are natural numbers.
- Floating-point shares are exact integer arithmetic: `floor(w·T/W)`, and
  rounding is half up.
- A JavaScript value that is absent or falsy is the empty string.
- Database results, clocks and the browser's `formatDate` step are
  parameters.

## Model

| member | source | states |
|---|---|---|
| DateCalculator.CalculatePhaseDates | frontend/src/utils/dateCalculator.js:8-99 | The loops return exactly `PhaseDates`. That is the input list when a date is missing, unparseable or out of order, when the list is empty, or when the total weight is 0. Otherwise it is the list with every stage's planned range written out. |
| DateCalculator.FirstPassDays | frontend/src/utils/dateCalculator.js:42-49 | The first-pass loop gives each stage `max(1, floor(w·T/W))` days and accumulates their sum. |
| DateCalculator.DistributeRemainingDays | frontend/src/utils/dateCalculator.js:51-64 | The leftover loop adds one day to each of the first min(remaining, n) stages in stable descending-weight order. The result is the specified allocation. |
| DateCalculator.LayOutStages | frontend/src/utils/dateCalculator.js:66-96 | Stage q starts on the day after stage q−1's clamped end. Its end is the clamped end, except the last stage, which ends on the overall end. Every other field is kept. |
| DateCalculator.TotalWeightIsSum | frontend/src/utils/dateCalculator.js:28 | The weight `reduce` is the sum of the stage weights. |
| DateCalculator.Weights | frontend/src/utils/dateCalculator.js:44 | One weight per stage, in stage order. |
| DateCalculator.StableOrderRanks | frontend/src/utils/dateCalculator.js:55-59 | The stable sort lists every stage index once. The stage at position p has exactly p stages ranked before it. |
| DateCalculator.RankPosition | frontend/src/utils/dateCalculator.js:55-59 | A stage's rank is its position in the sorted order. |
| DateCalculator.ExtraDaysGoToHeaviest | frontend/src/utils/dateCalculator.js:55-63 | A stage that gets a leftover day weighs at least as much as one that does not. On equal weight it comes first in the original order. |
| DateCalculator.ExtraFlagsCount | frontend/src/utils/dateCalculator.js:61-63 | After k rounds of the loop exactly k extra days have been handed out. |
| DateCalculator.AllocationSum | frontend/src/utils/dateCalculator.js:42-63 | The final allocation is the first pass plus the extra days. |
| DateCalculator.Allocation | frontend/src/utils/dateCalculator.js:42-63 | One day count per stage. |
| DateCalculator.AllocationPositive | frontend/src/utils/dateCalculator.js:46 | Every stage gets at least one day. |
| DateCalculator.RemainderBelowCount | frontend/src/utils/dateCalculator.js:42-52 | The flooring leaves fewer days over than there are stages, so the loop hands out all of them. |
| DateCalculator.FirstPassFits | frontend/src/utils/dateCalculator.js:42-49 | When every exact share is at least a day, the first pass does not over-allocate. |
| DateCalculator.AllocationUsesAllDays | frontend/src/utils/dateCalculator.js:51-64 | When the first pass fits, the allocation uses exactly T days. |
| DateCalculator.LayoutChained | frontend/src/utils/dateCalculator.js:66-91 | The first stage starts on the overall start. Each later stage starts the day after the previous end. No end passes the overall end. |
| DateCalculator.LayoutPartitions | frontend/src/utils/dateCalculator.js:66-96 | For an allocation of positive days summing to T, each stage spans exactly its days and the last one ends on the overall end. |
| DateCalculator.LayoutAt | frontend/src/utils/dateCalculator.js:66-96 | Stage q of the layout keeps its other fields. It starts on its computed start day and ends on its computed end day, or on the overall end if it is the last stage. |
| DateCalculator.ValidateDateRangeIsOrder | frontend/src/utils/dateCalculator.js:119-126 | On parseable dates the check is the order of the days: reflexive, transitive, antisymmetric and total. |
| DateCalculator.PhaseDatesUnchangedUnlessValid | frontend/src/utils/dateCalculator.js:9-33 | An invalid range, no stages or a zero total weight return the input unchanged. |
| DateCalculator.PhaseDatesKeepsOtherFields | frontend/src/utils/dateCalculator.js:36-96 | Same length and order; only `startDate` and `endDate` can differ. |
| DateCalculator.PhaseDatesOnValidRange | frontend/src/utils/dateCalculator.js:9-40 | Two dates that parse, in order, pass the range check. With a positive total weight the stages are then laid out over the allocation the weights give. |
| DateCalculator.LayoutDates | frontend/src/utils/dateCalculator.js:66-96 | The first stage starts on the overall start and the last ends on the overall end. Each stage starts the day after the previous one's end, and no end exceeds the overall end. |
| DateCalculator.PhaseDatesPartition | frontend/src/utils/dateCalculator.js:23-96 | When every stage's exact share is at least a day, the stages tile the range exactly, each with its allocated days. |
| DateCalculator.ExampleExactShares | frontend/src/utils/dateCalculator.js:42-64 | Ten days over weights 50/30/20 give 5/3/2. |
| DateCalculator.ExampleSpareDayToHeaviest | frontend/src/utils/dateCalculator.js:51-64 | Ten days over 34/33/33 give 4/3/3. |
| DateCalculator.ExampleTiesKeepOrder | frontend/src/utils/dateCalculator.js:55-63 | Six days over four equal weights give 2/2/1/1: ties keep the original order. |
| DateCalculator.ExampleOverAllocation | frontend/src/utils/dateCalculator.js:42-91 | A one-day range over two stages gives each a day. The second stage then starts after the overall end, and its end is clamped below its start. |
| Milestones.FormatDateForDisplay | frontend/src/components/EditStatusModal.jsx:99-112 | A "yyyy-mm-dd" value becomes "dd-mm-yyyy". Any other value, including "", "(empty)" and other text, is returned unchanged. |
| Milestones.FormatDateForDisplayIdempotent | frontend/src/components/EditStatusModal.jsx:99-112 | Formatting twice is formatting once. |
| Milestones.FormatDateForDisplayInvertible | frontend/src/components/EditStatusModal.jsx:99-112 | The stored date can be read back from the displayed one. |
| Milestones.SplitOnIsoShape | frontend/src/components/EditStatusModal.jsx:124-125 | `split("-")` of a "yyyy-mm-dd" value gives its three parts. |
| Milestones.SplitOn | frontend/src/components/EditStatusModal.jsx:124 | `split` always gives at least one part. |
| Milestones.NumberValueOfDigits | frontend/src/components/EditStatusModal.jsx:126 | `Number` of a digit string is its value. |
| Milestones.DateFromPartsOfRealDate | frontend/src/components/EditStatusModal.jsx:128-129 | A real calendar date builds its own day. |
| Milestones.ParseDateSafeAgreesWithParseIso | frontend/src/components/EditStatusModal.jsx:122-131 | On an ISO date from year 100 on, `parseDateSafe` and the allocator's parse give the same day. |
| Milestones.MilestoneRanges | frontend/src/components/EditStatusModal.jsx:133-146 | Always five entries. |
| Milestones.CalculateDevelopmentMilestoneRanges | frontend/src/components/EditStatusModal.jsx:133-198 | The method returns exactly the specified five ranges. |
| Milestones.MilestonesOfRange | frontend/src/components/EditStatusModal.jsx:148-198 | The `map` that carries `usedDays` from one milestone to the next computes the specified steps. |
| Milestones.Steps | frontend/src/components/EditStatusModal.jsx:148-197 | One entry per remaining milestone. |
| Milestones.AppendMilestone | frontend/src/components/EditStatusModal.jsx:148-198 | One round of the `map` appends the next specified milestone and carries the days used on. |
| Milestones.NextMilestone | frontend/src/components/EditStatusModal.jsx:151-196 | One call of the callback: its range and the days used after it. |
| Milestones.MilestoneRangesAvailability | frontend/src/components/EditStatusModal.jsx:134-146 | All five entries exist iff the stage's dates parse and are in order. Otherwise all five are null. |
| Milestones.MilestoneRangesChained | frontend/src/components/EditStatusModal.jsx:151-196 | The first milestone starts on the stage start. Each later one starts the day after the previous one's days. |
| Milestones.StepsChained | frontend/src/components/EditStatusModal.jsx:151-196 | The chaining holds from any milestone on. |
| Milestones.CorrectedStepsPartition | frontend/src/components/EditStatusModal.jsx:162-170 | With the intended guard, the milestones from any point on tile the remaining days. |
| Milestones.CorrectedStep | frontend/src/components/EditStatusModal.jsx:162-170 | With the intended guard, each milestone starts after the days used so far and gets at least one day. It leaves a day for each milestone still to come, and the last one ends on the stage end. |
| Milestones.CorrectedMilestonesPartition | frontend/src/components/EditStatusModal.jsx:162-170 | With the intended guard, a stage of at least five days is tiled exactly by its five milestones, and the last one ends on the stage end. |
| Milestones.AsWrittenEightDaySteps | frontend/src/components/EditStatusModal.jsx:162-165 | As written, an 8-day range gives milestone 4 the last two days and milestone 5 no day, starting after the range ends. |
| Milestones.AsWrittenEightDayStage | frontend/src/components/EditStatusModal.jsx:162-165 | The same for a stage: its milestones do not tile it. |
| Milestones.StepsEvenSplit | frontend/src/components/EditStatusModal.jsx:151-196 | For a stage of at least five days other than eight, under either guard, each milestone before the last gets the rounded 20% share and the last gets the remaining days. |
| Milestones.GuardsAgreeWhenRoom | frontend/src/components/EditStatusModal.jsx:162-165 | For every other range of at least five days the two guards compute the same milestones. |
| Milestones.AsWrittenAgreesExceptEightDays | frontend/src/components/EditStatusModal.jsx:133-198 | So the code as written is correct for every stage of five or more days except eight. |
| ChangeLog.OrEmpty | frontend/src/components/EditStatusModal.jsx:283-284 | `v \|\| "(empty)"` is never empty and keeps a non-empty value. |
| ChangeLog.FindChange | frontend/src/components/EditStatusModal.jsx:262-266 | `findIndex` on (fieldName, stageName): the first matching record, or none anywhere. |
| ChangeLog.AddedChangeUpserts | frontend/src/components/EditStatusModal.jsx:259-290 | With an existing record for the pair, only its `newValue` changes and its `previousValue` is kept. Otherwise exactly one record is appended. Empty values are stored as "(empty)", other records are unchanged, and pairs stay unique. |
| ChangeLog.AddedChangeTwice | frontend/src/components/EditStatusModal.jsx:268-275 | Two edits of one slot leave the first previous value and the last new value. |
| ChangeLog.FindChangeAfterUpdate | frontend/src/components/EditStatusModal.jsx:268-275 | Updating a record leaves it where `findIndex` finds it. |
| ChangeLog.FindChangeAfterAppend | frontend/src/components/EditStatusModal.jsx:276-287 | An appended record is found at the end. |
| ChangeLog.RemoveChangeClearsSlot | frontend/src/components/EditStatusModal.jsx:456-465 | The revert filter removes every record of the pair, keeps every other record and keeps their order. |
| ChangeLog.RevertUndoesEdit | frontend/src/components/EditStatusModal.jsx:442-466 | Editing a fresh slot and then reverting it restores the pending list. |
| ChangeLog.WithField | frontend/src/components/EditStatusModal.jsx:437-438 | Setting one stage field changes that field only. |
| ChangeLog.RevertNameMatchesForEditedFields | frontend/src/components/EditStatusModal.jsx:443-463 | The revert filter's name equals the recorded name except for the two planned dates. A reverted planned date therefore leaves its record pending. |
| ChangeLog.WithNoteReads | frontend/src/components/EditStatusModal.jsx:413-416 | Setting a note reads back its value and leaves every other note. |
| ChangeLog.WithNoteKeys | frontend/src/components/EditStatusModal.jsx:413-416 | Setting a note adds no key but its own. |
| ChangeLog.SpreadNotesReads | frontend/src/components/EditStatusModal.jsx:64-77 | Spreading notes over others keeps the keys unique. On the spread notes' keys it reads their value, and elsewhere the earlier value. |
| ChangeLog.PendingCandidates | frontend/src/components/EditStatusModal.jsx:533-534 | Each pending record is keyed by its own four values. |
| ChangeLog.ConsiderKeys | frontend/src/components/EditStatusModal.jsx:535-538 | One `changeKeys` test adds the key and keeps the kept keys distinct. |
| ChangeLog.CollectFacts | frontend/src/components/EditStatusModal.jsx:529-539 | The merge only appends. It keeps keys distinct, sees every candidate key and emits only candidates. |
| ChangeLog.CollectAllFresh | frontend/src/components/EditStatusModal.jsx:529-539 | Candidates with distinct keys all pass. |
| ChangeLog.AuditRecordsOnePerKey | frontend/src/components/EditStatusModal.jsx:528-648 | The merge emits one record per distinct key, and every record comes from a candidate. |
| ChangeLog.CandidatesSplit | frontend/src/components/EditStatusModal.jsx:528-648 | The candidates are the pending records followed by the snapshot differences. |
| ChangeLog.PendingComeFirst | frontend/src/components/EditStatusModal.jsx:533-539 | Pending records with distinct keys come first, all of them, in order. |
| ChangeLog.CollectKeepsFreshPrefix | frontend/src/components/EditStatusModal.jsx:533-539 | A distinct-keyed prefix passes the merge intact. |
| ChangeLog.ProjectLevelRecords | frontend/src/components/EditStatusModal.jsx:541-583 | The start, end and summary records have stage "N/A". Each appears iff its initial and current values differ, and holds the two values with "(empty)" for "". |
| ChangeLog.FieldCandidateMeaning | frontend/src/components/EditStatusModal.jsx:600-616 | A stage field yields a record iff its initial and current values differ. The record holds the raw values and the working stage's name. |
| ChangeLog.FieldCandidatesMembers | frontend/src/components/EditStatusModal.jsx:592-617 | Only the five listed fields are compared. |
| ChangeLog.StageCandidateSource | frontend/src/components/EditStatusModal.jsx:586-618 | Every stage record comes from one index present in both snapshots and one listed field. |
| ChangeLog.StageCandidateFromSource | frontend/src/components/EditStatusModal.jsx:586-618 | Every such difference yields its record. |
| ChangeLog.StageDiffPairsByIndex | frontend/src/components/EditStatusModal.jsx:586-618 | The stage records are exactly the field differences between the stages at the same index. A stage with no initial counterpart is skipped. |
| ChangeLog.NoStageCandidatesWhenUnchanged | frontend/src/components/EditStatusModal.jsx:586-618 | Unchanged stages yield nothing. |
| ChangeLog.NoNoteCandidatesWhenUnchanged | frontend/src/components/EditStatusModal.jsx:621-644 | Unchanged notes yield nothing. |
| ChangeLog.UnchangedSessionLogsNothing | frontend/src/components/EditStatusModal.jsx:528-648 | No pending record and no difference: nothing is logged. |
| ChangeLog.EmptyToValueLoggedTwice | frontend/src/components/EditStatusModal.jsx:533-616 | An owner set from "" to "Bob" is logged twice: "(empty)"→"Bob" from the pending list and ""→"Bob" from the stage diff. |
| ChangeLog.TwoCandidates | frontend/src/components/EditStatusModal.jsx:535-537 | Of two candidates with one key, only the first is kept. |
| ChangeLog.NoteCandidatesKeyedByRecord | frontend/src/components/EditStatusModal.jsx:632-641 | With record keys, every note candidate's key is its record's key. |
| ChangeLog.StageCandidatesKeyedByRecord | frontend/src/components/EditStatusModal.jsx:605-614 | Stage candidates are already keyed by their records. |
| ChangeLog.RecordKeysLogEachRecordOnce | frontend/src/components/EditStatusModal.jsx:528-648 | Corrected merge: no record is logged twice. |
| ChangeLog.NoteEditLoggedTwice | frontend/src/components/EditStatusModal.jsx:621-644 | As written, a note typed into an empty milestone is logged twice as the same record. Keyed by record, it is logged once. |
| EditSession.Baseline | frontend/src/components/EditStatusModal.jsx:500 | Each stage is compared with `initialStages[i] \|\| stages[i]`. |
| EditSession.FindStage | frontend/src/components/EditStatusModal.jsx:55 | `findIndex` by name: the first stage with that name, or none. |
| EditSession.DevelopmentNotes | frontend/src/components/EditStatusModal.jsx:54-78 | The opening notes have one key per milestone. |
| EditSession.WeightsExceptPlusOwn | frontend/src/components/EditStatusModal.jsx:328-332 | The other stages' weights plus the stage's own weight make the total. |
| EditSession.ReweightedTotal | frontend/src/components/EditStatusModal.jsx:334-341 | The new total is the other weights plus the new weight. |
| EditSession.WeightsExceptIgnoresIndex | frontend/src/components/EditStatusModal.jsx:328-332 | The sum of the other weights ignores the edited stage. |
| EditSession.SameWeightsSameTotal | frontend/src/components/EditStatusModal.jsx:328-332 | Equal weights give equal totals. |
| EditSession.RescheduleKeepsWeights | frontend/src/components/EditStatusModal.jsx:343-346 | Recalculating the dates keeps the stage names, weights and total. |
| EditSession.AcceptedWeightKeepsTotalWithinHundred | frontend/src/components/EditStatusModal.jsx:334-346 | An accepted weight keeps the total at most 100, before and after rescheduling, and is stored. |
| EditSession.ParseWeightOfDigits | frontend/src/components/EditStatusModal.jsx:317 | "40" and "40%" read as 40. |
| EditSession.ParseWeightNegative | frontend/src/components/EditStatusModal.jsx:317-321 | A minus sign followed by digits, such as "-5", reads as the negated number, which the guard rejects. |
| EditSession.AddedChangeKeepsSlots | frontend/src/components/EditStatusModal.jsx:259-290 | An upsert makes its slot present and keeps every slot already present. |
| EditSession.DateStepFacts | frontend/src/components/EditStatusModal.jsx:372-382 | Each moved planned date of a stage gets a pending record, and slots stay unique. |
| EditSession.RecordedDatesSlotsUnique | frontend/src/components/EditStatusModal.jsx:499-511 | Recording the moved dates keeps the slots unique. |
| EditSession.RecordedDatesKeepSlot | frontend/src/components/EditStatusModal.jsx:499-511 | A slot recorded for one stage stays recorded for the later ones. |
| EditSession.RecordedDatesCoverMoves | frontend/src/components/EditStatusModal.jsx:499-511 | Every moved planned date has its record, and earlier records stay. |
| EditSession.DatesMovedStep | frontend/src/components/EditStatusModal.jsx:498-510 | `hasChanges` after one more stage. |
| EditSession.RecordedDatesNoMove | frontend/src/components/EditStatusModal.jsx:498-511 | If no date moved, the pending list is unchanged. |
| EditSession.WeightEditKeepsTotal | frontend/src/components/EditStatusModal.jsx:315-393 | A NaN or negative weight, or one that takes the total over 100, changes nothing. An accepted one is stored, keeps the total at or below 100 and keeps the slots unique. |
| EditSession.WeightRevertKeepsStaleRecord | frontend/src/components/EditStatusModal.jsx:368-391 | Typing the initial weight back adds and removes nothing, so an earlier "Weight" record stays pending. |
| EditSession.FilterKeepsSlotsUnique | frontend/src/components/EditStatusModal.jsx:456-465 | Removing records keeps the slots unique. |
| EditSession.OpenedSessionLogsNothing | frontend/src/components/EditStatusModal.jsx:36-88 | A form just opened has nothing to log, provided the earlier opening left no unsaved note (as on the first opening). |
| EditSession.OpenedNotes | frontend/src/components/EditStatusModal.jsx:54-78 | After opening, the Development stage's five notes read "" in both snapshots. Every other note is the one the earlier opening left. |
| EditSession.UnsavedNoteCarriesOver | frontend/src/components/EditStatusModal.jsx:64-77 | A note edited but not saved on the earlier project, outside the new Development notes, still differs from its initial text after reopening. |
| EditSession.EditSession.constructor | frontend/src/components/EditStatusModal.jsx:36-88 | Opening copies the project into both snapshots and empties the pending list. The Development stage's empty notes are spread over the notes and initial notes the earlier opening left, as the still-mounted modal does. |
| EditSession.EditSession.SetStartDate | frontend/src/components/EditStatusModal.jsx:799 | The start-date input sets the working start date. |
| EditSession.EditSession.SetEndDate | frontend/src/components/EditStatusModal.jsx:814 | The end-date input sets the working end date. |
| EditSession.EditSession.SetSummary | frontend/src/components/EditStatusModal.jsx:1230 | The summary input sets the working summary. |
| EditSession.EditSession.AddPendingChange | frontend/src/components/EditStatusModal.jsx:259-290 | The pending list becomes the upsert of the record. |
| EditSession.EditSession.HandleStageChange | frontend/src/components/EditStatusModal.jsx:432-467 | Sets the field. It upserts the record under the display name when the value differs from the initial stage's, and otherwise removes the record under the revert filter's name. |
| EditSession.EditSession.RecordDateChanges | frontend/src/components/EditStatusModal.jsx:499-511 | The `forEach` records every moved planned date and reports whether any moved. |
| EditSession.EditSession.RecordStageDates | frontend/src/components/EditStatusModal.jsx:372-382 | One stage's comparison. |
| EditSession.EditSession.HandleWeightChange | frontend/src/components/EditStatusModal.jsx:315-393 | The new stages and pending list are the specified weight edit. |
| EditSession.EditSession.ApplyWeight | frontend/src/components/EditStatusModal.jsx:339-392 | An accepted weight updates the stage. It reschedules when both dates are valid, and records the weight and the moved dates only when the weight differs from the initial one. |
| EditSession.EditSession.HandleMilestoneNoteChange | frontend/src/components/EditStatusModal.jsx:407-430 | Sets the note. It upserts its record with "(empty)" for "" when the note differs from the initial one, and removes it otherwise. |
| EditSession.EditSession.HandleAutoCalculateDates | frontend/src/components/EditStatusModal.jsx:469-526 | Missing dates, an invalid range or no stages change nothing and report which. Otherwise the stages are rescheduled, and every date that differs from the baseline is recorded. |
| EditSession.EditSession.Reschedule | frontend/src/components/EditStatusModal.jsx:469-526 | With a valid range and some stages, the stages become the calculated phase dates. Each date that differs from the baseline is recorded, and the result says whether any did. |
| EditSession.EditSession.CollectAllChanges | frontend/src/components/EditStatusModal.jsx:528-648 | The loops build exactly the specified audit records. |
| EditSession.EditSession.CollectPending | frontend/src/components/EditStatusModal.jsx:533-539 | The pending block. |
| EditSession.EditSession.CollectProjectLevel | frontend/src/components/EditStatusModal.jsx:541-583 | The three project-level blocks. |
| EditSession.EditSession.CollectStageDiffs | frontend/src/components/EditStatusModal.jsx:586-618 | The stage `forEach`. |
| EditSession.EditSession.CollectStageAt | frontend/src/components/EditStatusModal.jsx:587-617 | One stage of it. |
| EditSession.EditSession.CollectNoteDiffs | frontend/src/components/EditStatusModal.jsx:621-644 | The note `forEach`. |
| EditSession.EditSession.TakeNote | frontend/src/components/EditStatusModal.jsx:622-643 | One note of it. |
| EditSession.Take | frontend/src/components/EditStatusModal.jsx:535-538 | One `changeKeys` test and push. |
| EditSession.TakeLevel | frontend/src/components/EditStatusModal.jsx:542-554 | One project-level comparison. |
| EditSession.CollectStageFields | frontend/src/components/EditStatusModal.jsx:600-617 | The field `forEach` of one stage. |
| EditSession.TakeField | frontend/src/components/EditStatusModal.jsx:601-616 | One field comparison. |
| ProjectModel.CastStageStatus | backend/models/Project.js:19-23 | A stage status is one of the four values. A missing one becomes "Yet to Start", and any other is refused. |
| ProjectModel.CastPriority | backend/models/Project.js:58-62 | Priority is P1, P2 or P3. A missing one becomes P3, and any other is refused. |
| ProjectModel.StageStatusLabelsRoundTrip | backend/models/Project.js:19-23 | Each status and its label determine each other. |
| ProjectModel.Progress | backend/models/Project.js:77-84 | 0 with no stages or a zero total weight. |
| ProjectModel.ProgressIsRoundedShare | backend/models/Project.js:79-83 | Otherwise it is the completed share of the weight in percent, rounded half up. |
| ProjectModel.CompletedWeightAtMostTotal | backend/models/Project.js:79-82 | The completed weight never exceeds the total. |
| ProjectModel.CompletedWeightAllCompleted | backend/models/Project.js:80-82 | With all stages Completed, the completed weight is the total. |
| ProjectModel.CompletedWeightNoneCompleted | backend/models/Project.js:80-82 | With none Completed, it is 0. |
| ProjectModel.ProgressBounds | backend/models/Project.js:77-84 | Progress lies in [0, 100]. |
| ProjectModel.ProgressAllCompleted | backend/models/Project.js:79-83 | 100 when every stage is Completed and the total weight is positive. |
| ProjectModel.FullShareIsHundred | backend/models/Project.js:83 | A full share rounds to 100. |
| ProjectModel.ProgressNoneCompleted | backend/models/Project.js:79-83 | 0 when no stage is Completed. |
| ProjectModel.ProgressMonotone | backend/models/Project.js:77-84 | Completing a stage never lowers progress. |
| ProjectModel.UpdateKeepsTotal | backend/models/Project.js:79 | A status change keeps the total weight. |
| ProjectModel.CompletedWeightGrows | backend/models/Project.js:80-82 | Completing a stage never lowers the completed weight. |
| ProjectModel.CompletedCountAtMostLength | backend/models/Project.js:89 | k ≤ n, with equality iff all stages are Completed. |
| ProjectModel.StatusSummaryShape | backend/models/Project.js:87-91 | The summary is "k/n Completed", which is "0/0 Completed" with no stages. |
| ProjectModel.StatusSummaryDeterminesCounts | backend/models/Project.js:87-91 | The summary text determines k and n. |
| ProjectTable.SearchFiltered | frontend/src/components/ProjectTable.jsx:9-15 | An order-preserving subsequence holding exactly the projects whose id or name contains the term, case-insensitively. |
| ProjectTable.EmptySearchKeepsAll | frontend/src/components/ProjectTable.jsx:9-15 | The empty term keeps every project. |
| ProjectTable.SearchFilteredIdempotent | frontend/src/components/ProjectTable.jsx:9-15 | Filtering twice is filtering once. |
| ProjectTable.SearchIgnoresCase | frontend/src/components/ProjectTable.jsx:10 | The term's case does not matter. |
| ProjectTable.Statuses | frontend/src/components/ProjectTable.jsx:50 | The stage statuses in order. |
| ProjectTable.WorstSeverityIsMaximum | frontend/src/components/ProjectTable.jsx:49-55 | The worst severity is the maximum over the stages. |
| ProjectTable.OverallStatusIsWorstStage | frontend/src/components/ProjectTable.jsx:49-55 | The overall status is the label of the worst stage, and an empty stage list is "Completed". |
| ProjectTable.WorstSeverityCases | frontend/src/components/ProjectTable.jsx:49-55 | Severity 3 iff some stage is Delayed. 2 iff none is Delayed and some is In Progress. 0 iff all are Completed. 1 otherwise. |
| ProjectTable.OverallStatusCases | frontend/src/components/ProjectTable.jsx:49-55 | The four outcomes, each as an iff: Delayed if any stage is Delayed; else In Progress if any is In Progress; else Completed if all are Completed; else Yet to Start. |
| ProjectTable.CompletedProjectShowsFullProgress | frontend/src/components/ProjectTable.jsx:18-32 | A Completed project with weight shows 100% and "n/n Completed". |
| ProjectTable.AllCompletedCount | frontend/src/components/ProjectTable.jsx:30 | All stages Completed means k = n. |
| LandingPage.StatusFilteredIsFilter | frontend/src/pages/LandingPage.jsx:115-121 | The status filter keeps the projects with the wanted overall status, and "all" keeps every project. |
| LandingPage.FilteredIsFilter | frontend/src/pages/LandingPage.jsx:111-135 | The two filters together are one filter of the list. |
| LandingPage.NoTermIsStatusFilter | frontend/src/pages/LandingPage.jsx:124 | An empty term applies no search. |
| LandingPage.FilteredProjectsMeaning | frontend/src/pages/LandingPage.jsx:111-135 | An order-preserving subsequence holding exactly the projects with the wanted status that match the term. |
| LandingPage.AllFilterKeepsEveryStatus | frontend/src/pages/LandingPage.jsx:111-135 | "all" is the search filter alone, and with no term it is the whole list. |
| LandingPage.CountsWithinTotal | frontend/src/pages/LandingPage.jsx:138-141 | completed + inProgress + delayed ≤ total. |
| LandingPage.CurrentProjectsAreIndices | frontend/src/pages/LandingPage.jsx:144-148 | Page p shows the filtered indices [(p−1)·10, p·10) that exist. |
| LandingPage.TotalPagesIsCeiling | frontend/src/pages/LandingPage.jsx:149 | totalPages = ⌈n/10⌉. |
| LandingPage.PagesFrom | frontend/src/pages/LandingPage.jsx:144-149 | The pages from p on are the rest of the list. |
| LandingPage.PagesCoverList | frontend/src/pages/LandingPage.jsx:144-149 | The pages, concatenated, are the filtered list. |
| LandingPage.ShowingRangeMatchesPage | frontend/src/pages/LandingPage.jsx:303 | "Showing a to b of n" names exactly the page shown. |
| LandingPage.WindowHead | frontend/src/pages/LandingPage.jsx:318-349 | At most one item per page number, and one exactly when a button or an ellipsis is due. |
| LandingPage.WindowUnfold | frontend/src/pages/LandingPage.jsx:318-349 | The `map` visits the pages in order. |
| LandingPage.WindowInOrder | frontend/src/pages/LandingPage.jsx:318-349 | Items are allowed ones, in increasing page order. |
| LandingPage.WindowCovers | frontend/src/pages/LandingPage.jsx:318-349 | Every due item appears. |
| LandingPage.PageItemsShape | frontend/src/pages/LandingPage.jsx:318-349 | Buttons appear exactly for the first page, the last page and pages within 1 of the current one. An ellipsis appears exactly at current ± 2 when that page gets no button. Items come in page order. |
| LandingPage.FilterChangeShowsFirstPage | frontend/src/pages/LandingPage.jsx:151-154 | A change of filter or term shows page 1, the first ten results. Otherwise the view is kept. |
| DepartmentDetails.DepartmentDetails | frontend/src/pages/DepartmentDetailsPage.jsx:44-84 | The two loops compute exactly the specified rows. |
| DepartmentDetails.GroupProjects | frontend/src/pages/DepartmentDetailsPage.jsx:47-62 | The first loop leaves exactly the dictionary that counting every project gives. |
| DepartmentDetails.PushDepartments | frontend/src/pages/DepartmentDetailsPage.jsx:65-81 | The second loop pushes the rows of the departments in sorted order, each department's owners sorted. |
| DepartmentDetails.CountProject | frontend/src/pages/DepartmentDetailsPage.jsx:47-62 | One project's pass over the dictionary. |
| DepartmentDetails.AddOne | frontend/src/pages/DepartmentDetailsPage.jsx:53-61 | Creates the entries it needs and increments the count. |
| DepartmentDetails.PushOwners | frontend/src/pages/DepartmentDetailsPage.jsx:73-80 | Pushes one row per owner. |
| DepartmentDetails.GroupRows | frontend/src/pages/DepartmentDetailsPage.jsx:73-80 | One row per owner. |
| DepartmentDetails.GroupRowsPrefix | frontend/src/pages/DepartmentDetailsPage.jsx:73-80 | Rows are pushed one owner at a time. |
| DepartmentDetails.BumpWellFormed | frontend/src/pages/DepartmentDetailsPage.jsx:53-61 | The key lists keep listing exactly the keys, once each. |
| DepartmentDetails.GroupedWellFormed | frontend/src/pages/DepartmentDetailsPage.jsx:47-62 | So does the filled dictionary. |
| DepartmentDetails.GroupedCounts | frontend/src/pages/DepartmentDetailsPage.jsx:47-62 | Each count is the number of counted projects with that trimmed pair, and a pair is present iff that number is positive. |
| DepartmentDetails.TablePairsMembers | frontend/src/pages/DepartmentDetailsPage.jsx:66-81 | The emitted pairs are exactly the dictionary's pairs. |
| DepartmentDetails.TableRowsMatchPairs | frontend/src/pages/DepartmentDetailsPage.jsx:66-81 | Each row shows its pair's owner and count, and the department name on first rows only. |
| DepartmentDetails.AppendGroupShows | frontend/src/pages/DepartmentDetailsPage.jsx:68-80 | Appending a department keeps that correspondence. |
| DepartmentDetails.TablePairsOrdered | frontend/src/pages/DepartmentDetailsPage.jsx:66-71 | Pairs are ordered by department, then by owner. |
| DepartmentDetails.GroupedDepartmentsDistinct | frontend/src/pages/DepartmentDetailsPage.jsx:66-67 | Each department is listed once. |
| DepartmentDetails.DetailRowsShowPairs | frontend/src/pages/DepartmentDetailsPage.jsx:44-84 | Each row shows its pair. |
| DepartmentDetails.DetailRowsCounts | frontend/src/pages/DepartmentDetailsPage.jsx:53-70 | Each row's count is the number of projects with its trimmed pair. |
| DepartmentDetails.DetailPairsMembers | frontend/src/pages/DepartmentDetailsPage.jsx:48-70 | One row per pair that some counted project has, so projects with an empty department or owner are ignored. |
| DepartmentDetails.DetailRowsOrdered | frontend/src/pages/DepartmentDetailsPage.jsx:66-71 | Rows are ordered by department, then by owner, for any strict total order on owners. |
| DepartmentDetails.DetailRowsFirstInDepartment | frontend/src/pages/DepartmentDetailsPage.jsx:73-79 | Only a department's first row is flagged and carries its name; the others carry "". |
| DepartmentDetails.LexLessIsStrictTotalOrder | frontend/src/pages/DepartmentDetailsPage.jsx:67 | The default `sort` order is a strict total order. |
| DepartmentDetails.BumpOtherDepartments | frontend/src/pages/DepartmentDetailsPage.jsx:61 | An increment leaves other departments' totals. |
| DepartmentDetails.BumpDepartment | frontend/src/pages/DepartmentDetailsPage.jsx:61 | It adds one to its department's total. |
| DepartmentDetails.BumpTotal | frontend/src/pages/DepartmentDetailsPage.jsx:61 | It adds one to the grand total. |
| DepartmentDetails.GroupedTotal | frontend/src/pages/DepartmentDetailsPage.jsx:47-62 | The grand total is the number of counted projects. |
| DepartmentDetails.GroupRowsTotal | frontend/src/pages/DepartmentDetailsPage.jsx:69-80 | A department's rows sum to its total. |
| DepartmentDetails.TableRowsTotal | frontend/src/pages/DepartmentDetailsPage.jsx:65-81 | All rows sum to the departments' totals. |
| DepartmentDetails.DetailRowsTotal | frontend/src/pages/DepartmentDetailsPage.jsx:47-81 | The counts sum to the number of projects that pass the emptiness check. |
| Sorting.Sort | frontend/src/pages/DepartmentDetailsPage.jsx:66-71 | The sorted list is a permutation of the input. |
| Sorting.Insert | frontend/src/pages/DepartmentDetailsPage.jsx:66-71 | Inserting adds exactly the one element. |
| Sorting.InsertSorted | frontend/src/pages/DepartmentDetailsPage.jsx:66-71 | Inserting a new key into a strictly sorted list keeps it strictly sorted. |
| Sorting.SortSorted | frontend/src/pages/DepartmentDetailsPage.jsx:66-71 | Distinct keys come out strictly increasing. |
| Sorting.SortMembers | frontend/src/pages/DepartmentDetailsPage.jsx:66-71 | Sorting keeps the members. |
| Sorting.SortDistinct | frontend/src/pages/DepartmentDetailsPage.jsx:66-71 | Sorting keeps the keys distinct. |
| ProjectIds.LatestProjectId | backend/routes/projectRoutes.js:23 | The greatest stored id in string order. None iff nothing is stored. |
| ProjectIds.LatestProjectIdIsGreatest | backend/routes/projectRoutes.js:23 | No stored id sorts after it. |
| ProjectIds.FormatProjectIdNumber | backend/routes/projectRoutes.js:28 | "PRJ" plus the zero-padded number reads back as the number. |
| ProjectIds.GenerateAfterWellFormed | backend/routes/projectRoutes.js:26-28 | After a well-formed id the next number is generated. |
| ProjectIds.FirstProjectId | backend/routes/projectRoutes.js:24 | No project gives "PRJ001". |
| ProjectIds.GenerateProjectIdNext | backend/routes/projectRoutes.js:22-29 | Numbering continues from a formatted id. |
| ProjectIds.DigitsLexOrder | backend/routes/projectRoutes.js:23 | For digit strings of equal length, string order is numeric order. |
| ProjectIds.LatestHasLargestNumber | backend/routes/projectRoutes.js:23 | While every id has three digits, the id that sorts last has the largest number. |
| ProjectIds.AsWrittenAgreesBelowThousand | backend/routes/projectRoutes.js:22-29 | While every id has three digits, the code as written gives the numeric successor. |
| ProjectIds.NextProjectIdFreshBelowThousand | backend/routes/projectRoutes.js:22-29 | While every id has three digits, the id the code as written generates is not taken yet and carries the largest number plus 1. |
| ProjectIds.NextProjectIdRepeats | backend/routes/projectRoutes.js:22-29 | As written, with "PRJ999" and "PRJ1000" stored, the id generated is "PRJ1000" again. |
| ProjectIds.MaxIdNumber | backend/routes/projectRoutes.js:26 | The largest number among the well-formed ids, and one of them (0 when there is none). |
| ProjectIds.NextProjectIdByNumberIsFresh | backend/routes/projectRoutes.js:22-29 | Corrected numbering: the id after the numerically largest is never taken, and reads back as that number plus 1. |
| ProjectRoutes.DefaultStagesWeights | backend/routes/projectRoutes.js:11-19 | Seven stages whose weights sum to 100. |
| ProjectRoutes.DefaultStagesBlank | backend/routes/projectRoutes.js:11-19 | Every stage is blank ("Yet to Start" and empty fields), passes the schema, and has a distinct name. |
| ProjectRoutes.DefaultStagesPassSchema | backend/routes/projectRoutes.js:11-19 | The stage schema accepts every template stage. |
| ProjectRoutes.DefaultStagesProgress | backend/routes/projectRoutes.js:289 | A new project shows 0% and "0/7 Completed". |
| ProjectRoutes.ProjectStatus | backend/routes/projectRoutes.js:276-282 | The status is always one of the four valid values. |
| ProjectRoutes.ProjectStatusDefaulting | backend/routes/projectRoutes.js:276-282 | A requested status is kept iff it is valid. Otherwise it becomes "Work in Progress", and defaulting twice is defaulting once. |
| ProjectRoutes.RemoveEmptyOptionalFields | backend/routes/projectRoutes.js:293-309 | The loop deletes exactly the listed optional fields equal to "". Every other key is kept with its value. |
| ProjectRoutes.CreateProjectData | backend/routes/projectRoutes.js:271-309 | The new document gets the id `generateProjectId` gives, the defaulted status and the template stages. Every other body field is kept unless it is an optional field equal to "". |
| ProjectRoutes.CreateProject | backend/routes/projectRoutes.js:271-320 | The project is created exactly when the body has every required text, any priority it gives is a valid label, and the generated id is not taken yet. Otherwise the route answers 400. The created document has the generated id and the template stages. |
| ProjectRoutes.PatchFields | backend/routes/projectRoutes.js:333-353 | Stages are replaced only by an array. The dates, summary and priority change only when given. Identity fields never change. |
| ProjectRoutes.PatchIdempotent | backend/routes/projectRoutes.js:333-353 | Applying a PATCH twice is applying it once. |
| ProjectRoutes.EmptyPatchKeepsProject | backend/routes/projectRoutes.js:333-353 | A PATCH with no field keeps the project. |
| ProjectRoutes.PatchesCommute | backend/routes/projectRoutes.js:333-353 | PATCHes that touch different fields commute. |
| ProjectRoutes.PatchPassesSchema | backend/models/Project.js:10-62 | On a project the schema accepts, the save after a PATCH is refused exactly when the body sets a priority outside P1-P3, or a stage without a name or with a status outside the four labels. |
| ProjectRoutes.SavedFormPassesSchema | frontend/src/components/EditStatusModal.jsx:655-714 | The form sends no priority, so its save is refused exactly when one of its stages has no name or an unknown status. |
| ProjectRoutes.SavingTheFormStoresIt | frontend/src/components/EditStatusModal.jsx:655-714 | Saving the form stores the working stages, dates and summary and keeps the priority, and the progress shown is that of the working stages. One log entry is stored per change record, in order. Read back, each shows the field name, both values as dd-mm-yyyy through `FormatDateForDisplay` with "" as "(empty)", the stage name or "N/A" for an empty one, and the author "Current User". |
| ProjectRoutes.ProjectDocument.constructor | backend/models/Project.js:36-74 | A stored project with its business-case list and legacy field. |
| ProjectRoutes.ProjectDocument.ApplyPatch | backend/routes/projectRoutes.js:322-381 | When the schema accepts the patched project, the document becomes it and one log entry is built per body log. When it refuses, the document is unchanged, no log is stored and the route answers 400. The business cases are untouched either way. |
| ProjectRoutes.ProjectDocument.UploadBusinessCases | backend/routes/projectRoutes.js:153-222 | No file: refused, nothing changes. Otherwise the legacy file is migrated and cleared, the list becomes the normalised old entries followed by the new uploads, and the message is built. |
| ProjectRoutes.UploadKeepsEveryFile | backend/routes/projectRoutes.js:172-206 | The file names after an upload are the old ones, the legacy one, then the uploads, in order. |
| ProjectRoutes.UploadMessagePlural | backend/routes/projectRoutes.js:214-216 | "Business Case" for one file and "Business Cases" for more. |
| ActivityLog.ToLogEntry | backend/routes/projectRoutes.js:360-368 | The stage and author are never empty, and the entry belongs to the project. |
| ActivityLog.LogEntries | backend/routes/projectRoutes.js:358-368 | One entry per log. |
| ActivityLog.ToLogEntryFallbacks | backend/routes/projectRoutes.js:360-368 | The client's name is taken first: fieldName→fieldChanged, previousValue→oldValue, stage "N/A", changedBy "System". |
| ActivityLog.LogEntriesInOrder | backend/routes/projectRoutes.js:360-368 | Entries come in the order of the logs. |
| ActivityLog.StoredNamesKept | backend/routes/projectRoutes.js:360-368 | A body already in the stored form is stored as it is. |
| ActivityLog.LogRoundTrip | backend/routes/projectRoutes.js:358-415 | A record the form sends is storable. It comes back with the same field and stage (stage "N/A" when there is none), the values formatted for display with "(empty)" for "", and author "Current User". |
| ActivityLog.PendingRecordRoundTrip | frontend/src/components/EditStatusModal.jsx:232-249 | A pending record whose values are not dates is shown exactly as recorded. A date value can be read back from the displayed one. |
| ActivityLog.NamelessLogNotStorable | backend/models/ProjectLog.js:10 | A log with no field name makes an entry the schema refuses. |
| BusinessCases.StripTrailingSlashes | backend/routes/projectRoutes.js:41 | Only trailing separators are removed. |
| BusinessCases.LastComponent | backend/routes/projectRoutes.js:41 | `basename` has no separator. |
| BusinessCases.ExtName | backend/routes/projectRoutes.js:43 | `extname` is empty or starts with ".". |
| BusinessCases.StemAndExtension | backend/routes/projectRoutes.js:41-43 | The stem and the extension make up the base name. |
| BusinessCases.ExtensionIsLastDot | backend/routes/projectRoutes.js:43 | A non-empty extension starts at the last dot, and that dot is not the first character. |
| BusinessCases.SanitizeSafe | backend/routes/projectRoutes.js:41 | The replacement leaves only [A-Za-z0-9_.-], keeps a safe name as it is and never shortens one. |
| BusinessCases.SanitizeIdempotent | backend/routes/projectRoutes.js:41 | Sanitising twice is sanitising once. |
| BusinessCases.StoredFileNameHasNoSeparator | backend/routes/projectRoutes.js:40-45 | A stored name never contains "/". |
| BusinessCases.StoredFileNameParts | backend/routes/projectRoutes.js:41-44 | A stored name ends with the original extension and begins with the sanitised stem. |
| BusinessCases.StoredFileNamesDiffer | backend/routes/projectRoutes.js:42-44 | One file uploaded at two times gets two names. |
| BusinessCases.StoredFileNameExample | backend/routes/projectRoutes.js:40-45 | "plan v2.pdf" at time 17 is stored as "plan_v2_17.pdf". |
| BusinessCases.NormalizeCase | backend/routes/projectRoutes.js:197-204 | Normalising keeps the stored name, path, type and size, and always sets a date. |
| BusinessCases.NormalizeCaseIdempotent | backend/routes/projectRoutes.js:197-204 | Normalising twice is normalising once. |
| BusinessCases.NormalizeCaseNamesOriginal | backend/routes/projectRoutes.js:199-203 | `originalName` falls back to `fileName` and a missing date to now; given values are kept. |
| BusinessCases.ForwardSlashes | backend/routes/projectRoutes.js:190 | Every "\\" becomes "/". |
| BusinessCases.MergedCases | backend/routes/projectRoutes.js:196-206 | Old entries plus new uploads. |
| BusinessCases.MergedCasesShape | backend/routes/projectRoutes.js:187-206 | The normalised old entries, then the new uploads, in order. |
| BusinessCases.MergedPathsUseForwardSlashes | backend/routes/projectRoutes.js:190 | After a merge no path holds "\\". |
| BusinessCases.UploadTwice | backend/routes/projectRoutes.js:196-206 | A second upload appends its files after the first merge, which is left as it is. |
| BusinessCases.FileNames | backend/routes/projectRoutes.js:198 | The stored names in order. |
| BusinessCases.UploadedNames | backend/routes/projectRoutes.js:188 | The uploads' names in order. |

## Left out

- Rendering, animation, toasts, timers, scrolling and highlight sets are
  presentation only. `AutoCalcOutcome` stands for the toasts of
  `handleAutoCalculateDates`.
- HTTP, Mongoose queries, `fs` calls and multer are modelled as follows:
  - the stored ids and the uploaded file records are parameters;
  - the 404 branches and the 500 error paths are not modelled;
  - `insertMany` rejecting an entry without `fieldChanged` is the predicate
    `ActivityLog.Storable`, not a failing call;
  - the `GET /logs` sort by date and its limit of 1000 are left out;
  - the legacy fallback of the business-case `GET` route and file deletion
    are left out.
- `buildBusinessCaseResponse` only adds a URL built from the request host,
  and is left out.
- `formatBytes` (logarithms on floats) and `fetchBusinessCase` are left out.
- JavaScript `Date` is replaced as follows:
  - dates are day numbers, and `new Date(s)` is read as a strict
    "yyyy-mm-dd" parse (`Dates.ParseIso`);
  - time zones, daylight saving and the millisecond `Math.ceil` and
    `Math.floor` are not modelled;
  - `formatDate` is the parameter `formatDate` of
    `DateCalculator.CalculatePhaseDates`, and the edit form passes
    `Dates.FormatIso`.
- `Dates` states no round trip between `FormatIso` and `ParseIso`.
- Floating-point arithmetic:
  - weights are natural numbers, so fractional weights are not modelled
    (`parseFloat` is read as a whole-number parse);
  - `Math.round(share·100)` is exact rounding half up, so rare
    float-rounding differences are not modelled.
- `localeCompare` and the default `sort` are explained in the `Sorting`
  module:
  - The owner order is a parameter, and a strict total order is assumed
    where the order of rows is stated.
  - Departments are compared by Unicode code point, not by the UTF-16 code
    units JavaScript compares.
  - `Object.keys` lists integer-like keys first. This does not matter here
    because both key lists are sorted before use.
- `Date.now()` and `Math.random()` record ids, `toLocaleString` timestamps,
  `projectName` in the log display, and Mongo `_id`s are opaque and left
  out.
- JavaScript's loose values are modelled as follows:
  - `null` and `undefined` are the same as "";
  - a PATCH value other than a string (a `null` priority, a number) is not
    modelled;
  - the extra e-mail fields that `updateProjectStages` sends are ignored by
    the route and left out;
  - an object key such as `__proto__`, and `parseInt` of hexadecimal or
    partly numeric ids, are not modelled.
- `DepartmentDetails`: the `useMemo` recomputation and the refetch on
  visibility change are not modelled.
- The spread copies (`{...stage}`, `JSON.parse(JSON.stringify(...))`) are
  implicit in value semantics. The claim that the input array is not mutated
  holds trivially.
- The previous-page and next-page buttons of the landing page are not
  modelled.
- `ProjectRoutes.ProjectDocument` holds only the fields the routes touch;
  the other schema fields are not modelled.
- `BusinessCases.UploadTwice`: it requires every first upload to carry an
  original name. A record without one gets its stored name as
  `originalName` on the next merge.
- `Milestones.ParseDateSafeAgreesWithParseIso`: it is stated only for years
  from 100 on. `DateFromParts` maps years 0-99 to 1900-1999, as
  `new Date(y, m, d)` does. `Dates.ParseIso` keeps those years as written,
  so the two differ there.
- SearchFiltered (`ProjectTable.SearchFiltered`, `ProjectTable.MatchesSearch`
  and the term filter of `LandingPage.FilteredProjectsMeaning`): the search
  ignores case only for the ASCII letters A-Z. `toLowerCase` also lower-cases
  other letters ("Ä" to "ä"), but there is no Unicode case table here.
- Text.ToLower: ASCII-only lower-casing, for that reason.
- ApplyPatch (`ProjectRoutes.ProjectDocument.ApplyPatch`): the schema check
  runs on the fields the document holds. The required `techDepartment` and
  `businessOwner` are not re-checked. A stage without a weight cannot be
  written, because weights are natural numbers.
- CreateProject (`ProjectRoutes.CreateProject`): a required field or a
  priority that is not a string (a number, `null`) is refused. Mongoose would
  cast a number to text first. The typed optional fields are not checked.

## Findings

| source | as written | input that shows it | evidently intended | confidence | as-written member | corrected member |
|---|---|---|---|---|---|---|
| frontend/src/components/EditStatusModal.jsx:162-165 | A milestone is capped only when its share exceeds all remaining days (`daysForMilestone > remainingDays`). | A Development stage of 8 days: the first four milestones take 2+2+2+2 days, and the fifth gets no day and starts after the stage ends. | Cap a share that leaves fewer days than there are milestones still to come (`> remainingDays - minRemaining`), so the five milestones tile the stage. | not executed | Milestones.AsWrittenEightDayStage | Milestones.CorrectedMilestonesPartition |
| frontend/src/components/EditStatusModal.jsx:621-644 | The note block builds its dedup key from the raw values ("") but records "(empty)". The pending block keys the record it stores. | An empty milestone note set to "x" is logged twice as the same record "(empty)"→"x". | Key each record by the values it records, so one change is logged once. | not executed | ChangeLog.NoteEditLoggedTwice | ChangeLog.RecordKeysLogEachRecordOnce |
| backend/routes/projectRoutes.js:22-29 | The next id follows the id that sorts last as a string. | With "PRJ999" and "PRJ1000" stored, "PRJ999" sorts last, so "PRJ1000" is generated again and the unique index refuses every new project. | Follow the numerically largest id (`ProjectIds.NextProjectIdByNumber`). The routes keep the code as written, so `ProjectRoutes.CreateProject` is refused in this case. | not executed | ProjectIds.NextProjectIdRepeats | ProjectIds.NextProjectIdByNumberIsFresh |

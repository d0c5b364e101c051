/**
 * The edit form's session state (frontend/src/components/EditStatusModal.jsx):
 * the initial snapshot of a project, the working copy the user edits, the
 * pending change list and the milestone notes, with the handlers that
 * update them and the save-time merge that reads them.
 */
module EditSession {
  import opened Base
  import opened Text
  import opened Dates
  import opened ProjectModel
  import opened DateCalculator
  import opened ChangeLog

  // ---------------------------------------------------------------------
  // Pure pieces the handlers use

  /** `initialStages[i] || stages[i]`: the stage an edit is compared against. */
  function InitialStage(initialStages: seq<Stage>, stages: seq<Stage>, i: nat): Stage
    requires i < |stages|
  {
    if i < |initialStages| then initialStages[i] else stages[i]
  }

  /** The comparison stage for every working stage. */
  function Baseline(initialStages: seq<Stage>, stages: seq<Stage>): (b: seq<Stage>)
    ensures |b| == |stages|
    ensures forall i :: 0 <= i < |stages| ==> b[i] == InitialStage(initialStages, stages, i)
  {
    seq(|stages|, i requires 0 <= i < |stages| => InitialStage(initialStages, stages, i))
  }

  /** `parseFloat(value.replace('%', '').trim())` on whole numbers; `None` is NaN. */
  function ParseWeight(value: string): Option<int> {
    ParseLeadingInt(Trim(ReplaceFirst(value, "%", "")))
  }

  /** `${weight}%`. */
  function WeightText(w: nat): string {
    NatToString(w) + "%"
  }

  /** The `reduce` over the other stages' weights. */
  function WeightsExcept(stages: seq<Stage>, index: int): nat
    decreases |stages|
  {
    if stages == [] then 0
    else (if index == 0 then 0 else stages[0].weight) + WeightsExcept(stages[1..], index - 1)
  }

  /** One stage of the date comparison: record each planned date that moved. */
  function DateStep(pending: seq<ChangeRecord>, b: Stage, c: Stage): seq<ChangeRecord> {
    var p1 := if b.startDate != c.startDate then AddedChange(pending, "Planned Start Date", b.startDate, c.startDate, c.name) else pending;
    if b.endDate != c.endDate then AddedChange(p1, "Planned End Date", b.endDate, c.endDate, c.name) else p1
  }

  /** The pending list after the date comparison of the first n recalculated stages. */
  function RecordedDates(pending: seq<ChangeRecord>, baseline: seq<Stage>, calculated: seq<Stage>, n: nat): seq<ChangeRecord>
    requires n <= |calculated| <= |baseline|
  {
    if n == 0 then pending
    else DateStep(RecordedDates(pending, baseline, calculated, n - 1), baseline[n - 1], calculated[n - 1])
  }

  /** Some of the first n recalculated stages got a different planned date. */
  predicate DatesMoved(baseline: seq<Stage>, calculated: seq<Stage>, n: nat)
    requires n <= |calculated| <= |baseline|
  {
    exists i :: 0 <= i < n && (baseline[i].startDate != calculated[i].startDate || baseline[i].endDate != calculated[i].endDate)
  }

  predicate HasSlot(pending: seq<ChangeRecord>, fieldName: string, stageName: string) {
    exists i :: 0 <= i < |pending| && InSlot(pending[i], fieldName, stageName)
  }

  /** `findIndex(s => s.name === name)`. */
  function FindStage(stages: seq<Stage>, name: string): (r: Option<nat>)
    ensures r.Some? ==> r.value < |stages| && stages[r.value].name == name
    ensures r.Some? ==> forall j :: 0 <= j < r.value ==> stages[j].name != name
    ensures r.None? ==> forall j :: 0 <= j < |stages| ==> stages[j].name != name
    decreases |stages|
  {
    if stages == [] then None
    else if stages[0].name == name then Some(0)
    else
      match FindStage(stages[1..], name)
      case None => None
      case Some(j) => Some(j + 1)
  }

  /** The five empty notes the form opens with for the Development stage, if there is one. */
  function DevelopmentNotes(stages: seq<Stage>): (notes: Notes)
    ensures NoteKeysUnique(notes)
  {
    match FindStage(stages, "Development")
    case None => []
    case Some(d) =>
      [(MilestoneKey(d, 0), ""), (MilestoneKey(d, 1), ""), (MilestoneKey(d, 2), ""),
       (MilestoneKey(d, 3), ""), (MilestoneKey(d, 4), "")]
  }

  /** Every opening note is empty. */
  lemma DevelopmentNotesEmpty(stages: seq<Stage>, k: MilestoneKey)
    ensures NoteOf(DevelopmentNotes(stages), k) == ""
  {
    NoteOfBlank(DevelopmentNotes(stages), k);
  }

  /** What `handleAutoCalculateDates` reports through its toasts. */
  datatype AutoCalcOutcome = MissingDates | InvalidRange | NoStages | Calculated(hasChanges: bool)

  // ---------------------------------------------------------------------
  // Lemmas about the pure pieces

  /** The other stages' weights and the edited stage's own make up the total. */
  lemma {:induction false} WeightsExceptPlusOwn(stages: seq<Stage>, index: nat)
    requires index < |stages|
    ensures WeightsExcept(stages, index) + stages[index].weight == TotalWeight(stages)
    decreases |stages|
  {
    if index > 0 {
      WeightsExceptPlusOwn(stages[1..], index - 1);
    } else {
      WeightsExceptSkipsNothing(stages[1..], -1);
    }
  }

  lemma {:induction false} WeightsExceptSkipsNothing(stages: seq<Stage>, index: int)
    requires index < 0
    ensures WeightsExcept(stages, index) == TotalWeight(stages)
    decreases |stages|
  {
    if stages != [] {
      WeightsExceptSkipsNothing(stages[1..], index - 1);
    }
  }

  /** Setting one stage's weight to n gives a total of the other weights plus n. */
  lemma ReweightedTotal(stages: seq<Stage>, index: nat, n: nat)
    requires index < |stages|
    ensures TotalWeight(stages[index := stages[index].(weight := n)]) == WeightsExcept(stages, index) + n
  {
    var updated := stages[index := stages[index].(weight := n)];
    WeightsExceptPlusOwn(updated, index);
    WeightsExceptIgnoresIndex(stages, index, stages[index].(weight := n));
  }

  lemma {:induction false} WeightsExceptIgnoresIndex(stages: seq<Stage>, index: nat, s: Stage)
    requires index < |stages|
    ensures WeightsExcept(stages[index := s], index) == WeightsExcept(stages, index)
    decreases |stages|
  {
    if index > 0 {
      assert stages[index := s][1..] == stages[1..][index - 1 := s];
      WeightsExceptIgnoresIndex(stages[1..], index - 1, s);
    } else {
      assert stages[index := s][1..] == stages[1..];
    }
  }

  lemma {:induction false} SameWeightsSameTotal(a: seq<Stage>, b: seq<Stage>)
    requires |a| == |b| && forall i :: 0 <= i < |a| ==> a[i].weight == b[i].weight
    ensures TotalWeight(a) == TotalWeight(b)
    decreases |a|
  {
    if a != [] {
      SameWeightsSameTotal(a[1..], b[1..]);
    }
  }

  /** Recalculating the dates keeps every weight, so the total too. */
  lemma RescheduleKeepsWeights(startDate: string, endDate: string, stages: seq<Stage>)
    ensures var r := PhaseDates(startDate, endDate, stages, FormatIso);
      |r| == |stages| && TotalWeight(r) == TotalWeight(stages)
      && forall i :: 0 <= i < |r| ==> r[i].weight == stages[i].weight && r[i].name == stages[i].name
  {
    var r := PhaseDates(startDate, endDate, stages, FormatIso);
    PhaseDatesKeepsOtherFields(startDate, endDate, stages, FormatIso);
    forall i | 0 <= i < |r| ensures r[i].weight == stages[i].weight && r[i].name == stages[i].name {
      assert r[i].(startDate := stages[i].startDate, endDate := stages[i].endDate) == stages[i];
    }
    SameWeightsSameTotal(r, stages);
  }

  /**
   * An accepted weight edit keeps the total weight within 100, whether or
   * not the dates are recalculated, and gives the edited stage its weight.
   */
  lemma AcceptedWeightKeepsTotalWithinHundred(stages: seq<Stage>, index: nat, n: nat, startDate: string, endDate: string)
    requires index < |stages| && WeightsExcept(stages, index) + n <= 100
    ensures var updated := stages[index := stages[index].(weight := n)];
      TotalWeight(updated) <= 100 && TotalWeight(PhaseDates(startDate, endDate, updated, FormatIso)) <= 100
      && PhaseDates(startDate, endDate, updated, FormatIso)[index].weight == n
  {
    var updated := stages[index := stages[index].(weight := n)];
    ReweightedTotal(stages, index, n);
    RescheduleKeepsWeights(startDate, endDate, updated);
  }

  /** A whole number typed with or without a trailing "%" is read as that number. */
  lemma ParseWeightOfDigits(d: string)
    requires d != [] && AllDigits(d)
    ensures ParseWeight(d) == Some(DigitsValue(d) as int)
    ensures ParseWeight(d + "%") == Some(DigitsValue(d) as int)
  {
    ReplaceFirstDigits(d);
    ReplaceFirstDigitsPercent(d);
    ParseDigitsText(d);
  }

  /** Digits alone are trimmed to themselves and read as their value. */
  lemma ParseDigitsText(d: string)
    requires d != [] && AllDigits(d)
    ensures ParseLeadingInt(Trim(d)) == Some(DigitsValue(d) as int)
  {
    assert IsDigit(d[0]) && IsDigit(d[|d| - 1]);
    TrimDigitEnds(d);
    ParseLeadingIntOfDigits(d);
  }

  /** A minus sign is read, so the handler's `< 0` check rejects the value. */
  lemma ParseWeightNegative(m: string)
    requires |m| >= 2 && m[0] == '-' && AllDigits(m[1..]) && DigitsValue(m[1..]) > 0
    ensures ParseWeight(m) == Some(-(DigitsValue(m[1..]) as int))
  {
    assert IsDigit(m[1..][|m| - 2]);
    ReplaceFirstSigned(m);
    TrimSigned(m);
    ParseLeadingIntNegative(m);
  }

  lemma ReplaceFirstSigned(m: string)
    requires m != [] && m[0] == '-' && AllDigits(m[1..])
    ensures ReplaceFirst(m, "%", "") == m
  {
    assert m[..1][0] == '-';
    ReplaceFirstDigits(m[1..]);
    assert [m[0]] + m[1..] == m;
  }

  lemma TrimSigned(m: string)
    requires m != [] && m[0] == '-' && IsDigit(m[|m| - 1])
    ensures Trim(m) == m
  {
    assert !IsWhitespace(m[0]);
    assert TrimStart(m) == m;
    assert !IsWhitespace(m[|m| - 1]);
  }

  lemma {:induction false} ReplaceFirstDigits(d: string)
    requires AllDigits(d)
    ensures ReplaceFirst(d, "%", "") == d
    decreases |d|
  {
    if |d| >= 1 {
      assert IsDigit(d[0]) && d[..1][0] == d[0] && "%"[0] == '%';
      ReplaceFirstDigits(d[1..]);
      assert [d[0]] + d[1..] == d;
    }
  }

  lemma {:induction false} ReplaceFirstDigitsPercent(d: string)
    requires AllDigits(d)
    ensures ReplaceFirst(d + "%", "%", "") == d
    decreases |d|
  {
    if d == [] {
      assert ("" + "%")[..1] == "%";
      assert ("" + "%")[1..] == "";
    } else {
      assert IsDigit(d[0]) && (d + "%")[..1][0] == d[0] && "%"[0] == '%';
      assert (d + "%")[1..] == d[1..] + "%";
      ReplaceFirstDigitsPercent(d[1..]);
      assert [d[0]] + d[1..] == d;
    }
  }

  lemma AddedChangeKeepsSlots(pending: seq<ChangeRecord>, fieldName: string, previousValue: string, newValue: string, stageName: string, f: string, s: string)
    ensures HasSlot(AddedChange(pending, fieldName, previousValue, newValue, stageName), fieldName, stageName)
    ensures HasSlot(pending, f, s) ==> HasSlot(AddedChange(pending, fieldName, previousValue, newValue, stageName), f, s)
  {
    var r := AddedChange(pending, fieldName, previousValue, newValue, stageName);
    match FindChange(pending, fieldName, stageName)
    case Some(k) =>
      assert InSlot(r[k], fieldName, stageName);
      if HasSlot(pending, f, s) {
        var i :| 0 <= i < |pending| && InSlot(pending[i], f, s);
        assert InSlot(r[i], f, s);
      }
    case None =>
      assert InSlot(r[|pending|], fieldName, stageName);
      if HasSlot(pending, f, s) {
        var i :| 0 <= i < |pending| && InSlot(pending[i], f, s);
        assert r[i] == pending[i];
      }
  }

  /** One stage's comparison keeps slots unique and every slot, and adds the moved dates' slots. */
  lemma DateStepFacts(pending: seq<ChangeRecord>, b: Stage, c: Stage, f: string, t: string)
    ensures SlotsUnique(pending) ==> SlotsUnique(DateStep(pending, b, c))
    ensures HasSlot(pending, f, t) ==> HasSlot(DateStep(pending, b, c), f, t)
    ensures b.startDate != c.startDate ==> HasSlot(DateStep(pending, b, c), "Planned Start Date", c.name)
    ensures b.endDate != c.endDate ==> HasSlot(DateStep(pending, b, c), "Planned End Date", c.name)
  {
    if SlotsUnique(pending) {
      DateStepUnique(pending, b, c);
    }
    if HasSlot(pending, f, t) {
      DateStepKeepsSlot(pending, b, c, f, t);
    }
    if b.startDate != c.startDate {
      DateStepRecordsMove(pending, b, c, "Planned Start Date");
    }
    if b.endDate != c.endDate {
      DateStepRecordsMove(pending, b, c, "Planned End Date");
    }
  }

  /** One stage's date comparison keeps the slots unique. */
  lemma DateStepUnique(pending: seq<ChangeRecord>, b: Stage, c: Stage)
    requires SlotsUnique(pending)
    ensures SlotsUnique(DateStep(pending, b, c))
  {
    var p1 := if b.startDate != c.startDate then AddedChange(pending, "Planned Start Date", b.startDate, c.startDate, c.name) else pending;
    AddedChangeUpserts(pending, "Planned Start Date", b.startDate, c.startDate, c.name);
    AddedChangeUpserts(p1, "Planned End Date", b.endDate, c.endDate, c.name);
  }

  /** A planned date that moved leaves a record in the slot of that date and stage. */
  lemma DateStepRecordsMove(pending: seq<ChangeRecord>, b: Stage, c: Stage, field: string)
    requires (field == "Planned Start Date" && b.startDate != c.startDate)
          || (field == "Planned End Date" && b.endDate != c.endDate)
    ensures HasSlot(DateStep(pending, b, c), field, c.name)
  {
    var p1 := if b.startDate != c.startDate then AddedChange(pending, "Planned Start Date", b.startDate, c.startDate, c.name) else pending;
    AddedChangeKeepsSlots(pending, "Planned Start Date", b.startDate, c.startDate, c.name, "Planned Start Date", c.name);
    AddedChangeKeepsSlots(p1, "Planned End Date", b.endDate, c.endDate, c.name, "Planned Start Date", c.name);
  }

  /** The date comparison keeps the pending list's slots unique. */
  lemma {:induction false} RecordedDatesSlotsUnique(pending: seq<ChangeRecord>, baseline: seq<Stage>, calculated: seq<Stage>, n: nat)
    requires n <= |calculated| <= |baseline| && SlotsUnique(pending)
    ensures SlotsUnique(RecordedDates(pending, baseline, calculated, n))
  {
    if n > 0 {
      RecordedDatesSlotsUnique(pending, baseline, calculated, n - 1);
      var prev := RecordedDates(pending, baseline, calculated, n - 1);
      DateStepUnique(prev, baseline[n - 1], calculated[n - 1]);
      assert RecordedDates(pending, baseline, calculated, n) == DateStep(prev, baseline[n - 1], calculated[n - 1]);
    }
  }

  /** A slot present after m stages is still present after n >= m. */
  lemma {:induction false} RecordedDatesKeepSlot(pending: seq<ChangeRecord>, baseline: seq<Stage>, calculated: seq<Stage>, m: nat, n: nat, f: string, t: string)
    requires m <= n <= |calculated| <= |baseline|
    requires HasSlot(RecordedDates(pending, baseline, calculated, m), f, t)
    ensures HasSlot(RecordedDates(pending, baseline, calculated, n), f, t)
  {
    if n > m {
      RecordedDatesKeepSlot(pending, baseline, calculated, m, n - 1, f, t);
      var prev := RecordedDates(pending, baseline, calculated, n - 1);
      DateStepKeepsSlot(prev, baseline[n - 1], calculated[n - 1], f, t);
      assert RecordedDates(pending, baseline, calculated, n) == DateStep(prev, baseline[n - 1], calculated[n - 1]);
    }
  }

  /** One stage's date comparison keeps every slot. */
  lemma DateStepKeepsSlot(pending: seq<ChangeRecord>, b: Stage, c: Stage, f: string, t: string)
    requires HasSlot(pending, f, t)
    ensures HasSlot(DateStep(pending, b, c), f, t)
  {
    var p1 := if b.startDate != c.startDate then AddedChange(pending, "Planned Start Date", b.startDate, c.startDate, c.name) else pending;
    AddedChangeKeepsSlots(pending, "Planned Start Date", b.startDate, c.startDate, c.name, f, t);
    AddedChangeKeepsSlots(p1, "Planned End Date", b.endDate, c.endDate, c.name, f, t);
  }

  /**
   * The date comparison keeps every pending slot and leaves a pending
   * record for each planned date that moved, under the stage's name.
   */
  lemma RecordedDatesCoverMoves(pending: seq<ChangeRecord>, baseline: seq<Stage>, calculated: seq<Stage>, n: nat, i: nat, f: string, t: string)
    requires n <= |calculated| <= |baseline|
    ensures HasSlot(pending, f, t) ==> HasSlot(RecordedDates(pending, baseline, calculated, n), f, t)
    ensures i < n && baseline[i].startDate != calculated[i].startDate ==>
      HasSlot(RecordedDates(pending, baseline, calculated, n), "Planned Start Date", calculated[i].name)
    ensures i < n && baseline[i].endDate != calculated[i].endDate ==>
      HasSlot(RecordedDates(pending, baseline, calculated, n), "Planned End Date", calculated[i].name)
  {
    if HasSlot(pending, f, t) {
      RecordedDatesKeepSlot(pending, baseline, calculated, 0, n, f, t);
    }
    if i < n && baseline[i].startDate != calculated[i].startDate {
      MovedDateRecorded(pending, baseline, calculated, n, i, "Planned Start Date");
    }
    if i < n && baseline[i].endDate != calculated[i].endDate {
      MovedDateRecorded(pending, baseline, calculated, n, i, "Planned End Date");
    }
  }

  lemma MovedDateRecorded(pending: seq<ChangeRecord>, baseline: seq<Stage>, calculated: seq<Stage>, n: nat, i: nat, field: string)
    requires i < n <= |calculated| <= |baseline|
    requires field == "Planned Start Date" ==> baseline[i].startDate != calculated[i].startDate
    requires field == "Planned End Date" ==> baseline[i].endDate != calculated[i].endDate
    requires field == "Planned Start Date" || field == "Planned End Date"
    ensures HasSlot(RecordedDates(pending, baseline, calculated, n), field, calculated[i].name)
  {
    var prev := RecordedDates(pending, baseline, calculated, i);
    DateStepRecordsMove(prev, baseline[i], calculated[i], field);
    assert RecordedDates(pending, baseline, calculated, i + 1) == DateStep(prev, baseline[i], calculated[i]);
    RecordedDatesKeepSlot(pending, baseline, calculated, i + 1, n, field, calculated[i].name);
  }

  lemma DatesMovedStep(baseline: seq<Stage>, calculated: seq<Stage>, n: nat)
    requires n < |calculated| <= |baseline|
    ensures DatesMoved(baseline, calculated, n + 1) <==>
      DatesMoved(baseline, calculated, n)
      || baseline[n].startDate != calculated[n].startDate || baseline[n].endDate != calculated[n].endDate
  {
    if DatesMoved(baseline, calculated, n + 1) && !DatesMoved(baseline, calculated, n) {
      var i :| 0 <= i < n + 1 && (baseline[i].startDate != calculated[i].startDate || baseline[i].endDate != calculated[i].endDate);
      assert i == n;
    }
  }

  /** When no planned date moved, the pending list is left as it was. */
  lemma {:induction false} RecordedDatesNoMove(pending: seq<ChangeRecord>, baseline: seq<Stage>, calculated: seq<Stage>, n: nat)
    requires n <= |calculated| <= |baseline| && !DatesMoved(baseline, calculated, n)
    ensures RecordedDates(pending, baseline, calculated, n) == pending
  {
    if n > 0 {
      assert !DatesMoved(baseline, calculated, n - 1) by {
        if DatesMoved(baseline, calculated, n - 1) {
          var i :| 0 <= i < n - 1 && (baseline[i].startDate != calculated[i].startDate || baseline[i].endDate != calculated[i].endDate);
          assert DatesMoved(baseline, calculated, n);
        }
      }
      RecordedDatesNoMove(pending, baseline, calculated, n - 1);
    }
  }

  predicate DatesSet(startDate: string, endDate: string) {
    startDate != "" && endDate != "" && ValidateDateRange(startDate, endDate)
  }

  predicate WeightRejected(stages: seq<Stage>, index: nat, w: Option<int>) {
    w.None? || w.value < 0 || WeightsExcept(stages, index) + w.value > 100
  }

  /**
   * The weight handler's effect on (stages, pending): a rejected weight
   * changes nothing; an accepted one is set, the dates are recalculated
   * when the project range is valid, and a weight that differs from the
   * initial one is recorded together with the planned dates it moved.
   */
  function WeightEdited(initialStages: seq<Stage>, stages: seq<Stage>, pending: seq<ChangeRecord>,
                        startDate: string, endDate: string, index: nat, value: string): (seq<Stage>, seq<ChangeRecord>)
    requires index < |stages|
  {
    var w := ParseWeight(value);
    if WeightRejected(stages, index, w) then (stages, pending)
    else WeightApplied(initialStages, stages, pending, startDate, endDate, index, w.value)
  }

  /** An accepted weight n for stage `index`. */
  function WeightApplied(initialStages: seq<Stage>, stages: seq<Stage>, pending: seq<ChangeRecord>,
                         startDate: string, endDate: string, index: nat, n: nat): (seq<Stage>, seq<ChangeRecord>)
    requires index < |stages|
  {
    var updated := stages[index := stages[index].(weight := n)];
    var initialWeight := InitialStage(initialStages, stages, index).weight;
    var recorded := AddedChange(pending, "Weight", WeightText(initialWeight), WeightText(n), StageLabel(stages, index, "Unknown Stage"));
    if DatesSet(startDate, endDate) then
      var r := PhaseDates(startDate, endDate, updated, FormatIso);
      (r, if initialWeight == n then pending else RecordedDates(recorded, updated, r, |r|))
    else (updated, if initialWeight == n then pending else recorded)
  }

  /**
   * A weight edit never takes the total over 100: a rejected one changes
   * nothing, an accepted one leaves a total of at most 100 with the edited
   * stage at the new weight, and the pending slots stay unique.
   */
  lemma WeightEditKeepsTotal(initialStages: seq<Stage>, stages: seq<Stage>, pending: seq<ChangeRecord>,
                             startDate: string, endDate: string, index: nat, value: string)
    requires index < |stages| && SlotsUnique(pending)
    ensures var (st, p) := WeightEdited(initialStages, stages, pending, startDate, endDate, index, value);
      SlotsUnique(p) && |st| == |stages|
      && (WeightRejected(stages, index, ParseWeight(value)) ==> st == stages && p == pending)
      && (!WeightRejected(stages, index, ParseWeight(value)) ==>
            TotalWeight(st) <= 100 && st[index].weight == ParseWeight(value).value)
  {
    var w := ParseWeight(value);
    if !WeightRejected(stages, index, w) {
      var n: nat := w.value;
      var updated := stages[index := stages[index].(weight := n)];
      var initialWeight := InitialStage(initialStages, stages, index).weight;
      var stageName := StageLabel(stages, index, "Unknown Stage");
      AcceptedWeightKeepsTotalWithinHundred(stages, index, n, startDate, endDate);
      RescheduleKeepsWeights(startDate, endDate, updated);
      AddedChangeUpserts(pending, "Weight", WeightText(initialWeight), WeightText(n), stageName);
      var recorded := AddedChange(pending, "Weight", WeightText(initialWeight), WeightText(n), stageName);
      var r := PhaseDates(startDate, endDate, updated, FormatIso);
      RecordedDatesSlotsUnique(recorded, updated, r, |r|);
    }
  }

  /**
   * Setting a weight back to its initial value records nothing new and
   * does not drop the earlier "Weight" record, unlike the other fields.
   */
  lemma WeightRevertKeepsStaleRecord(initialStages: seq<Stage>, stages: seq<Stage>, pending: seq<ChangeRecord>,
                                     startDate: string, endDate: string, index: nat, value: string)
    requires index < |stages|
    requires ParseWeight(value) == Some(InitialStage(initialStages, stages, index).weight)
    ensures WeightEdited(initialStages, stages, pending, startDate, endDate, index, value).1 == pending
  {
  }

  /**
   * The state the form opens with, as a snapshot. The modal stays mounted
   * between projects, so the notes of the earlier opening are kept and the
   * Development stage's five empty notes are spread over them. The early
   * `prev[developmentIndex]` return looks up a key of the form `${d}`; no
   * note key has that form, so the spread always happens.
   */
  function Opened(project: Project, prevNotes: Notes, prevInitialNotes: Notes): Snapshot {
    Snapshot(project.stages, project.stages, project.startDate, project.startDate, project.endDate, project.endDate,
             project.overallProjectSummary, project.overallProjectSummary, [],
             SpreadNotes(prevInitialNotes, DevelopmentNotes(project.stages)),
             SpreadNotes(prevNotes, DevelopmentNotes(project.stages)))
  }

  /**
   * After opening, the Development stage's notes read empty in both
   * snapshots and every other note is the one the earlier opening left.
   */
  lemma OpenedNotes(project: Project, prevNotes: Notes, prevInitialNotes: Notes, k: MilestoneKey)
    requires NoteKeysUnique(prevNotes) && NoteKeysUnique(prevInitialNotes)
    ensures var st := Opened(project, prevNotes, prevInitialNotes);
      NoteKeysUnique(st.notes) &&
      NoteOf(st.notes, k) == (if k in KeysOf(DevelopmentNotes(project.stages)) then "" else NoteOf(prevNotes, k)) &&
      NoteOf(st.initialNotes, k) == (if k in KeysOf(DevelopmentNotes(project.stages)) then "" else NoteOf(prevInitialNotes, k))
  {
    var dev := DevelopmentNotes(project.stages);
    DevelopmentNotesEmpty(project.stages, k);
    SpreadNotesReads(prevNotes, dev, k);
    SpreadNotesReads(prevInitialNotes, dev, k);
  }

  /**
   * Saving straight after opening logs no change, under either key rule, when
   * the earlier opening left no unsaved note (in particular on the first opening).
   */
  lemma OpenedSessionLogsNothing(project: Project, prevNotes: Notes, prevInitialNotes: Notes, rule: KeyRule)
    requires NoteKeysUnique(prevNotes) && NoteKeysUnique(prevInitialNotes)
    requires forall k :: NoteOf(prevNotes, k) == NoteOf(prevInitialNotes, k)
    ensures AuditRecords(Opened(project, prevNotes, prevInitialNotes), rule) == []
  {
    var st := Opened(project, prevNotes, prevInitialNotes);
    forall k ensures NoteOf(st.initialNotes, k) == NoteOf(st.notes, k) {
      OpenedNotes(project, prevNotes, prevInitialNotes, k);
    }
    UnchangedSessionLogsNothing(st, rule);
  }

  /**
   * A note edited but not saved on an earlier project, outside the new
   * project's Development notes, still differs from its initial text.
   */
  lemma UnsavedNoteCarriesOver(project: Project, prevNotes: Notes, prevInitialNotes: Notes, k: MilestoneKey)
    requires NoteKeysUnique(prevNotes) && NoteKeysUnique(prevInitialNotes)
    requires k !in KeysOf(DevelopmentNotes(project.stages))
    requires NoteOf(prevNotes, k) != NoteOf(prevInitialNotes, k)
    ensures NoteOf(Opened(project, prevNotes, prevInitialNotes).notes, k) != NoteOf(Opened(project, prevNotes, prevInitialNotes).initialNotes, k)
  {
    OpenedNotes(project, prevNotes, prevInitialNotes, k);
  }

  // ---------------------------------------------------------------------
  // The session

  class EditSession {
    var initialStages: seq<Stage>
    var stages: seq<Stage>
    var initialStartDate: string
    var startDate: string
    var initialEndDate: string
    var endDate: string
    var initialSummary: string
    var summary: string
    var pending: seq<ChangeRecord>
    var initialNotes: Notes
    var notes: Notes

    /** One pending record per (fieldName, stageName) slot; one note per key. */
    ghost predicate Valid()
      reads this
    {
      SlotsUnique(pending) && NoteKeysUnique(notes)
    }

    function State(): Snapshot
      reads this
    {
      Snapshot(initialStages, stages, initialStartDate, startDate, initialEndDate, endDate,
               initialSummary, summary, pending, initialNotes, notes)
    }

    /**
     * Opening the form on a project: both snapshots are the project, nothing
     * is pending, and the Development notes are spread over the notes the
     * earlier opening left (both empty on the first opening).
     */
    constructor (project: Project, prevNotes: Notes, prevInitialNotes: Notes)
      requires NoteKeysUnique(prevNotes)
      ensures Valid()
      ensures initialStages == project.stages && stages == project.stages
      ensures initialStartDate == project.startDate && startDate == project.startDate
      ensures initialEndDate == project.endDate && endDate == project.endDate
      ensures initialSummary == project.overallProjectSummary && summary == project.overallProjectSummary
      ensures pending == []
      ensures initialNotes == SpreadNotes(prevInitialNotes, DevelopmentNotes(project.stages))
      ensures notes == SpreadNotes(prevNotes, DevelopmentNotes(project.stages))
      ensures State() == Opened(project, prevNotes, prevInitialNotes)
    {
      stages := project.stages;
      startDate := project.startDate;
      endDate := project.endDate;
      summary := project.overallProjectSummary;
      initialStages := project.stages;
      initialStartDate := project.startDate;
      initialEndDate := project.endDate;
      initialSummary := project.overallProjectSummary;
      SpreadNotesReads(prevNotes, DevelopmentNotes(project.stages), MilestoneKey(0, 0));
      notes := SpreadNotes(prevNotes, DevelopmentNotes(project.stages));
      initialNotes := SpreadNotes(prevInitialNotes, DevelopmentNotes(project.stages));
      pending := [];
    }

    method SetStartDate(v: string)
      modifies this`startDate
      ensures startDate == v
    {
      startDate := v;
    }

    method SetEndDate(v: string)
      modifies this`endDate
      ensures endDate == v
    {
      endDate := v;
    }

    method SetSummary(v: string)
      modifies this`summary
      ensures summary == v
    {
      summary := v;
    }

    /** `addPendingChange`. */
    method AddPendingChange(fieldName: string, previousValue: string, newValue: string, stageName: string)
      requires Valid()
      modifies this`pending
      ensures Valid()
      ensures pending == AddedChange(old(pending), fieldName, previousValue, newValue, stageName)
    {
      AddedChangeUpserts(pending, fieldName, previousValue, newValue, stageName);
      var existingIndex := FindChange(pending, fieldName, stageName);
      if existingIndex.Some? {
        var i := existingIndex.value;
        pending := pending[i := pending[i].(newValue := OrEmpty(newValue))];
      } else {
        pending := pending + [ChangeRecord(fieldName, OrEmpty(previousValue), OrEmpty(newValue), stageName)];
      }
    }

    /** `handleStageChange`: edit one field; record it, or drop the record when it is reverted. */
    method HandleStageChange(index: nat, field: StageField, value: string)
      requires Valid() && index < |stages|
      modifies this`stages, this`pending
      ensures Valid()
      ensures stages == old(stages)[index := WithField(old(stages)[index], field, value)]
      ensures var initialValue := FieldValue(InitialStage(initialStages, old(stages), index), field);
        var stageName := StageLabel(old(stages), index, "Unknown Stage");
        pending == if initialValue != value
                   then AddedChange(old(pending), DisplayName(field), initialValue, value, stageName)
                   else RemoveChange(old(pending), RevertName(field), stageName)
    {
      var initialStage := InitialStage(initialStages, stages, index);
      var initialValue := FieldValue(initialStage, field);
      var stageName := StageLabel(stages, index, "Unknown Stage");
      stages := stages[index := WithField(stages[index], field, value)];
      if initialValue != value {
        AddPendingChange(DisplayName(field), initialValue, value, stageName);
      } else {
        FilterKeepsSlotsUnique(pending, (c: ChangeRecord) => !InSlot(c, RevertName(field), stageName));
        pending := RemoveChange(pending, RevertName(field), stageName);
      }
    }

    /** The `forEach` that records each recalculated stage's moved planned dates. */
    method RecordDateChanges(baseline: seq<Stage>, calculated: seq<Stage>) returns (moved: bool)
      requires Valid() && |calculated| <= |baseline|
      modifies this`pending
      ensures Valid()
      ensures pending == RecordedDates(old(pending), baseline, calculated, |calculated|)
      ensures moved == DatesMoved(baseline, calculated, |calculated|)
    {
      moved := false;
      var idx := 0;
      while idx < |calculated|
        invariant 0 <= idx <= |calculated|
        invariant Valid()
        invariant pending == RecordedDates(old(pending), baseline, calculated, idx)
        invariant moved == DatesMoved(baseline, calculated, idx)
      {
        var movedHere := RecordStageDates(baseline[idx], calculated[idx]);
        DatesMovedStep(baseline, calculated, idx);
        moved := moved || movedHere;
        idx := idx + 1;
      }
    }

    /** One stage of that `forEach`. */
    method RecordStageDates(current: Stage, calculatedStage: Stage) returns (moved: bool)
      requires Valid()
      modifies this`pending
      ensures Valid()
      ensures pending == DateStep(old(pending), current, calculatedStage)
      ensures moved == (current.startDate != calculatedStage.startDate || current.endDate != calculatedStage.endDate)
    {
      moved := false;
      if current.startDate != calculatedStage.startDate {
        AddPendingChange("Planned Start Date", current.startDate, calculatedStage.startDate, calculatedStage.name);
        moved := true;
      }
      if current.endDate != calculatedStage.endDate {
        AddPendingChange("Planned End Date", current.endDate, calculatedStage.endDate, calculatedStage.name);
        moved := true;
      }
    }

    /** `handleWeightChange`: the stages and pending list afterwards are `WeightEdited`'s. */
    method HandleWeightChange(index: nat, value: string)
      requires Valid() && index < |stages|
      modifies this`stages, this`pending
      ensures Valid()
      ensures (stages, pending) == WeightEdited(initialStages, old(stages), old(pending), startDate, endDate, index, value)
    {
      var numericValue := ParseWeight(value);
      if numericValue.None? || numericValue.value < 0 {
        return;
      }
      var n: nat := numericValue.value;
      var otherStagesTotal := WeightsExcept(stages, index);
      if otherStagesTotal + n > 100 {
        return;
      }
      ApplyWeight(index, n);
    }

    /** The accepted-weight part of `handleWeightChange`. */
    method ApplyWeight(index: nat, n: nat)
      requires Valid() && index < |stages|
      modifies this`stages, this`pending
      ensures Valid()
      ensures (stages, pending) == WeightApplied(initialStages, old(stages), old(pending), startDate, endDate, index, n)
    {
      var initialWeight := InitialStage(initialStages, stages, index).weight;
      var stageName := StageLabel(stages, index, "Unknown Stage");
      var updatedStages := stages[index := stages[index].(weight := n)];
      if startDate != "" && endDate != "" && ValidateDateRange(startDate, endDate) {
        var recalculatedStages := CalculatePhaseDates(startDate, endDate, updatedStages, FormatIso);
        RescheduleKeepsWeights(startDate, endDate, updatedStages);
        if initialWeight != n {
          AddPendingChange("Weight", WeightText(initialWeight), WeightText(n), stageName);
          var _ := RecordDateChanges(updatedStages, recalculatedStages);
        }
        stages := recalculatedStages;
      } else {
        stages := updatedStages;
        if initialWeight != n {
          AddPendingChange("Weight", WeightText(initialWeight), WeightText(n), stageName);
        }
      }
    }

    /** `handleMilestoneNoteChange`: write the note; record it, or drop the record when reverted. */
    method HandleMilestoneNoteChange(stageIndex: nat, milestoneIndex: nat, value: string)
      requires Valid()
      modifies this`notes, this`pending
      ensures Valid()
      ensures notes == WithNote(old(notes), MilestoneKey(stageIndex, milestoneIndex), value)
      ensures var k := MilestoneKey(stageIndex, milestoneIndex);
        var initialValue := NoteOf(initialNotes, k);
        var stageName := MilestoneStageName(stages, k);
        pending == if initialValue != value
                   then AddedChange(old(pending), "Milestone Notes", OrEmpty(initialValue), OrEmpty(value), stageName)
                   else RemoveChange(old(pending), "Milestone Notes", stageName)
    {
      var milestoneKey := MilestoneKey(stageIndex, milestoneIndex);
      var initialValue := NoteOf(initialNotes, milestoneKey);
      var stageName := MilestoneStageName(stages, milestoneKey);
      WithNoteReads(notes, milestoneKey, value, milestoneKey);
      notes := WithNote(notes, milestoneKey, value);
      if initialValue != value {
        AddPendingChange("Milestone Notes", OrEmpty(initialValue), OrEmpty(value), stageName);
      } else {
        FilterKeepsSlotsUnique(pending, (c: ChangeRecord) => !InSlot(c, "Milestone Notes", stageName));
        pending := RemoveChange(pending, "Milestone Notes", stageName);
      }
    }

    /**
     * `handleAutoCalculateDates`: with both project dates set, a valid range
     * and some stages, recalculate the planned dates and record each one
     * that differs from the stage's initial version.
     */
    method HandleAutoCalculateDates() returns (outcome: AutoCalcOutcome)
      requires Valid()
      modifies this`stages, this`pending
      ensures Valid()
      ensures startDate == "" || endDate == "" ==>
        outcome == MissingDates && stages == old(stages) && pending == old(pending)
      ensures startDate != "" && endDate != "" && !ValidateDateRange(startDate, endDate) ==>
        outcome == InvalidRange && stages == old(stages) && pending == old(pending)
      ensures ValidateDateRange(startDate, endDate) && old(stages) == [] ==>
        outcome == NoStages && stages == old(stages) && pending == old(pending)
      ensures startDate != "" && endDate != "" && ValidateDateRange(startDate, endDate) && old(stages) != [] ==>
        var baseline := Baseline(initialStages, old(stages));
        stages == PhaseDates(startDate, endDate, old(stages), FormatIso)
        && pending == RecordedDates(old(pending), baseline, stages, |stages|)
        && outcome == Calculated(DatesMoved(baseline, stages, |stages|))
    {
      if startDate == "" || endDate == "" {
        return MissingDates;
      }
      if !ValidateDateRange(startDate, endDate) {
        return InvalidRange;
      }
      if |stages| == 0 {
        return NoStages;
      }
      var hasChanges := Reschedule();
      return Calculated(hasChanges);
    }

    /** The handler once the range is valid and there are stages: new dates, and a record per moved date. */
    method Reschedule() returns (hasChanges: bool)
      requires Valid() && ValidateDateRange(startDate, endDate) && stages != []
      modifies this`stages, this`pending
      ensures Valid()
      ensures var baseline := Baseline(initialStages, old(stages));
        stages == PhaseDates(startDate, endDate, old(stages), FormatIso)
        && pending == RecordedDates(old(pending), baseline, stages, |stages|)
        && hasChanges == DatesMoved(baseline, stages, |stages|)
    {
      var calculatedStages := CalculatePhaseDates(startDate, endDate, stages, FormatIso);
      RescheduleKeepsWeights(startDate, endDate, stages);
      var baseline := Baseline(initialStages, stages);
      hasChanges := RecordDateChanges(baseline, calculatedStages);
      stages := calculatedStages;
    }

    // The save-time merge

    /** `collectAllChanges`: the records to log, given how the snapshot-diff keys are built. */
    method CollectAllChanges(rule: KeyRule) returns (allChanges: seq<ChangeRecord>)
      ensures allChanges == AuditRecords(State(), rule)
    {
      var st := State();
      var changeKeys: set<string> := {};
      ghost var kept: seq<Candidate> := [];
      allChanges := [];
      allChanges, changeKeys, kept := CollectPending(allChanges, changeKeys, kept);
      allChanges, changeKeys, kept := CollectProjectLevel(rule, allChanges, changeKeys, kept);
      allChanges, changeKeys, kept := CollectStageDiffs(allChanges, changeKeys, kept);
      allChanges, changeKeys, kept := CollectNoteDiffs(rule, allChanges, changeKeys, kept);
      ghost var pc, qc := PendingCandidates(st.pending), ProjectCandidates(st, rule);
      ghost var sc, nc := StageCandidates(st.initialStages, st.stages, 0), NoteCandidates(st, rule, 0);
      CollectConcat([], pc, qc);
      CollectConcat([], pc + qc, sc);
      CollectConcat([], pc + qc + sc, nc);
    }

    method CollectPending(allChanges: seq<ChangeRecord>, changeKeys: set<string>, ghost kept: seq<Candidate>)
      returns (allChanges': seq<ChangeRecord>, changeKeys': set<string>, ghost kept': seq<Candidate>)
      requires allChanges == Records(kept) && changeKeys == KeySet(kept)
      ensures allChanges' == Records(kept') && changeKeys' == KeySet(kept')
      ensures kept' == Collect(kept, PendingCandidates(pending))
    {
      allChanges', changeKeys', kept' := allChanges, changeKeys, kept;
      var cands := PendingCandidates(pending);
      var i := 0;
      while i < |pending|
        invariant 0 <= i <= |pending|
        invariant allChanges' == Records(kept') && changeKeys' == KeySet(kept')
        invariant Collect(kept', cands[i..]) == Collect(kept, cands)
      {
        var change := pending[i];
        var key := JoinKey(change.fieldName, change.stageName, change.previousValue, change.newValue);
        CollectCons(kept', cands[i..]);
        allChanges', changeKeys', kept' := Take(allChanges', changeKeys', kept', key, change);
        i := i + 1;
      }
    }

    method CollectProjectLevel(rule: KeyRule, allChanges: seq<ChangeRecord>, changeKeys: set<string>, ghost kept: seq<Candidate>)
      returns (allChanges': seq<ChangeRecord>, changeKeys': set<string>, ghost kept': seq<Candidate>)
      requires allChanges == Records(kept) && changeKeys == KeySet(kept)
      ensures allChanges' == Records(kept') && changeKeys' == KeySet(kept')
      ensures kept' == Collect(kept, ProjectCandidates(State(), rule))
    {
      allChanges', changeKeys', kept' := allChanges, changeKeys, kept;
      allChanges', changeKeys', kept' := TakeLevel(rule, "Planned Start Date", initialStartDate, startDate, allChanges', changeKeys', kept');
      allChanges', changeKeys', kept' := TakeLevel(rule, "Planned End Date", initialEndDate, endDate, allChanges', changeKeys', kept');
      allChanges', changeKeys', kept' := TakeLevel(rule, "Overall Project Summary", initialSummary, summary, allChanges', changeKeys', kept');
      ghost var a := LevelCandidate(rule, "Planned Start Date", initialStartDate, startDate);
      ghost var b := LevelCandidate(rule, "Planned End Date", initialEndDate, endDate);
      ghost var c := LevelCandidate(rule, "Overall Project Summary", initialSummary, summary);
      CollectConcat(kept, a, b);
      CollectConcat(kept, a + b, c);
    }

    method CollectStageDiffs(allChanges: seq<ChangeRecord>, changeKeys: set<string>, ghost kept: seq<Candidate>)
      returns (allChanges': seq<ChangeRecord>, changeKeys': set<string>, ghost kept': seq<Candidate>)
      requires allChanges == Records(kept) && changeKeys == KeySet(kept)
      ensures allChanges' == Records(kept') && changeKeys' == KeySet(kept')
      ensures kept' == Collect(kept, StageCandidates(initialStages, stages, 0))
    {
      allChanges', changeKeys', kept' := allChanges, changeKeys, kept;
      var index := 0;
      while index < |stages|
        invariant 0 <= index <= |stages|
        invariant allChanges' == Records(kept') && changeKeys' == KeySet(kept')
        invariant Collect(kept', StageCandidates(initialStages, stages, index)) == Collect(kept, StageCandidates(initialStages, stages, 0))
      {
        allChanges', changeKeys', kept' := CollectStageAt(index, allChanges', changeKeys', kept');
        index := index + 1;
      }
    }

    /** One stage of the `forEach`: `if (!initialStage) return`, else its five fields. */
    method CollectStageAt(index: nat, allChanges: seq<ChangeRecord>, changeKeys: set<string>, ghost kept: seq<Candidate>)
      returns (allChanges': seq<ChangeRecord>, changeKeys': set<string>, ghost kept': seq<Candidate>)
      requires index < |stages|
      requires allChanges == Records(kept) && changeKeys == KeySet(kept)
      ensures allChanges' == Records(kept') && changeKeys' == KeySet(kept')
      ensures Collect(kept', StageCandidates(initialStages, stages, index + 1)) == Collect(kept, StageCandidates(initialStages, stages, index))
    {
      allChanges', changeKeys', kept' := allChanges, changeKeys, kept;
      if index < |initialStages| {
        StageCandidatesUnfold(initialStages, stages, index, kept);
        allChanges', changeKeys', kept' := CollectStageFields(initialStages[index], stages[index], allChanges', changeKeys', kept');
      } else {
        StageCandidatesSkip(initialStages, stages, index, kept);
      }
    }

    method CollectNoteDiffs(rule: KeyRule, allChanges: seq<ChangeRecord>, changeKeys: set<string>, ghost kept: seq<Candidate>)
      returns (allChanges': seq<ChangeRecord>, changeKeys': set<string>, ghost kept': seq<Candidate>)
      requires allChanges == Records(kept) && changeKeys == KeySet(kept)
      ensures allChanges' == Records(kept') && changeKeys' == KeySet(kept')
      ensures kept' == Collect(kept, NoteCandidates(State(), rule, 0))
    {
      allChanges', changeKeys', kept' := allChanges, changeKeys, kept;
      var i := 0;
      while i < |notes|
        invariant 0 <= i <= |notes|
        invariant allChanges' == Records(kept') && changeKeys' == KeySet(kept')
        invariant Collect(kept', NoteCandidates(State(), rule, i)) == Collect(kept, NoteCandidates(State(), rule, 0))
      {
        NoteCandidatesUnfold(State(), rule, i, kept');
        allChanges', changeKeys', kept' := TakeNote(rule, i, allChanges', changeKeys', kept');
        i := i + 1;
      }
    }

    /** One milestone note compared with its initial text. */
    method TakeNote(rule: KeyRule, i: nat, allChanges: seq<ChangeRecord>, changeKeys: set<string>, ghost kept: seq<Candidate>)
      returns (allChanges': seq<ChangeRecord>, changeKeys': set<string>, ghost kept': seq<Candidate>)
      requires i < |notes|
      requires allChanges == Records(kept) && changeKeys == KeySet(kept)
      ensures allChanges' == Records(kept') && changeKeys' == KeySet(kept')
      ensures kept' == Collect(kept, NoteCandidate(State(), rule, i))
    {
      allChanges', changeKeys', kept' := allChanges, changeKeys, kept;
      var milestoneKey := notes[i].0;
      var initialValue := NoteOf(initialNotes, milestoneKey);
      var currentValue := NoteOf(notes, milestoneKey);
      var fullStageName := MilestoneStageName(stages, milestoneKey);
      if initialValue != currentValue {
        var record := ChangeRecord("Milestone Notes", OrEmpty(initialValue), OrEmpty(currentValue), fullStageName);
        var c := Keyed(rule, JoinKey("Milestone Notes", fullStageName, initialValue, currentValue), record);
        CollectOne(kept, c);
        allChanges', changeKeys', kept' := Take(allChanges', changeKeys', kept', c.key, record);
      }
    }
  }

  // ---------------------------------------------------------------------
  // Steps of the merge outside the class

  /** Keep a record unless its key was seen. */
  method Take(allChanges: seq<ChangeRecord>, changeKeys: set<string>, ghost kept: seq<Candidate>, key: string, record: ChangeRecord)
    returns (allChanges': seq<ChangeRecord>, changeKeys': set<string>, ghost kept': seq<Candidate>)
    requires allChanges == Records(kept) && changeKeys == KeySet(kept)
    ensures allChanges' == Records(kept') && changeKeys' == KeySet(kept')
    ensures kept' == Consider(kept, Candidate(key, record))
  {
    ConsiderKeys(kept, Candidate(key, record));
    kept' := Consider(kept, Candidate(key, record));
    if key !in changeKeys {
      changeKeys' := changeKeys + {key};
      allChanges' := allChanges + [record];
    } else {
      changeKeys', allChanges' := changeKeys, allChanges;
    }
  }

  /** One project-level comparison. */
  method TakeLevel(rule: KeyRule, fieldName: string, before: string, after: string,
                   allChanges: seq<ChangeRecord>, changeKeys: set<string>, ghost kept: seq<Candidate>)
    returns (allChanges': seq<ChangeRecord>, changeKeys': set<string>, ghost kept': seq<Candidate>)
    requires allChanges == Records(kept) && changeKeys == KeySet(kept)
    ensures allChanges' == Records(kept') && changeKeys' == KeySet(kept')
    ensures kept' == Collect(kept, LevelCandidate(rule, fieldName, before, after))
  {
    allChanges', changeKeys', kept' := allChanges, changeKeys, kept;
    if before != after {
      var record := ChangeRecord(fieldName, OrEmpty(before), OrEmpty(after), "N/A");
      var c := Keyed(rule, JoinKey(fieldName, "N/A", before, after), record);
      CollectOne(kept, c);
      allChanges', changeKeys', kept' := Take(allChanges', changeKeys', kept', c.key, record);
    }
  }

  /** The five-field comparison of one stage with its initial version. */
  method CollectStageFields(initialStage: Stage, stage: Stage,
                            allChanges: seq<ChangeRecord>, changeKeys: set<string>, ghost kept: seq<Candidate>)
    returns (allChanges': seq<ChangeRecord>, changeKeys': set<string>, ghost kept': seq<Candidate>)
    requires allChanges == Records(kept) && changeKeys == KeySet(kept)
    ensures allChanges' == Records(kept') && changeKeys' == KeySet(kept')
    ensures kept' == Collect(kept, FieldCandidates(initialStage, stage, 0))
  {
    allChanges', changeKeys', kept' := allChanges, changeKeys, kept;
    var j := 0;
    while j < |CheckedFields|
      invariant 0 <= j <= |CheckedFields|
      invariant allChanges' == Records(kept') && changeKeys' == KeySet(kept')
      invariant Collect(kept', FieldCandidates(initialStage, stage, j)) == Collect(kept, FieldCandidates(initialStage, stage, 0))
    {
      FieldCandidatesUnfold(initialStage, stage, j, kept');
      allChanges', changeKeys', kept' := TakeField(initialStage, stage, CheckedFields[j], allChanges', changeKeys', kept');
      j := j + 1;
    }
  }

  /** One field of that comparison. */
  method TakeField(initialStage: Stage, stage: Stage, field: StageField,
                   allChanges: seq<ChangeRecord>, changeKeys: set<string>, ghost kept: seq<Candidate>)
    returns (allChanges': seq<ChangeRecord>, changeKeys': set<string>, ghost kept': seq<Candidate>)
    requires allChanges == Records(kept) && changeKeys == KeySet(kept)
    ensures allChanges' == Records(kept') && changeKeys' == KeySet(kept')
    ensures kept' == Collect(kept, FieldCandidate(initialStage, stage, field))
  {
    allChanges', changeKeys', kept' := allChanges, changeKeys, kept;
    var initialValue, currentValue := FieldValue(initialStage, field), FieldValue(stage, field);
    if initialValue != currentValue {
      var record := ChangeRecord(DisplayName(field), initialValue, currentValue, stage.name);
      var key := JoinKey(DisplayName(field), stage.name, initialValue, currentValue);
      CollectOne(kept, Candidate(key, record));
      allChanges', changeKeys', kept' := Take(allChanges', changeKeys', kept', key, record);
    }
  }

  lemma FieldCandidatesUnfold(initialStage: Stage, stage: Stage, j: nat, kept: seq<Candidate>)
    requires j < |CheckedFields|
    ensures Collect(kept, FieldCandidates(initialStage, stage, j))
      == Collect(Collect(kept, FieldCandidate(initialStage, stage, CheckedFields[j])), FieldCandidates(initialStage, stage, j + 1))
  {
    CollectConcat(kept, FieldCandidate(initialStage, stage, CheckedFields[j]), FieldCandidates(initialStage, stage, j + 1));
  }

  lemma CollectOne(kept: seq<Candidate>, c: Candidate)
    ensures Collect(kept, [c]) == Consider(kept, c)
  {
    assert [c][1..] == [];
  }

  lemma CollectCons(kept: seq<Candidate>, cands: seq<Candidate>)
    requires cands != []
    ensures Collect(kept, cands) == Collect(Consider(kept, cands[0]), cands[1..])
  {
  }

  /** The merge step at stage `index` is that stage's comparison followed by the rest. */
  lemma StageCandidatesUnfold(initialStages: seq<Stage>, stages: seq<Stage>, index: nat, kept: seq<Candidate>)
    requires index < |stages| && index < |initialStages|
    ensures Collect(kept, StageCandidates(initialStages, stages, index))
      == Collect(Collect(kept, FieldCandidates(initialStages[index], stages[index], 0)), StageCandidates(initialStages, stages, index + 1))
  {
    CollectConcat(kept, FieldCandidates(initialStages[index], stages[index], 0), StageCandidates(initialStages, stages, index + 1));
  }

  /** A stage without an initial version contributes nothing. */
  lemma StageCandidatesSkip(initialStages: seq<Stage>, stages: seq<Stage>, index: nat, kept: seq<Candidate>)
    requires |initialStages| <= index < |stages|
    ensures StageCandidates(initialStages, stages, index) == StageCandidates(initialStages, stages, index + 1)
  {
    assert [] + StageCandidates(initialStages, stages, index + 1) == StageCandidates(initialStages, stages, index + 1);
  }

  lemma NoteCandidatesUnfold(st: Snapshot, rule: KeyRule, i: nat, kept: seq<Candidate>)
    requires i < |st.notes|
    ensures Collect(kept, NoteCandidates(st, rule, i))
      == Collect(Collect(kept, NoteCandidate(st, rule, i)), NoteCandidates(st, rule, i + 1))
  {
    assert NoteCandidates(st, rule, i) == NoteCandidate(st, rule, i) + NoteCandidates(st, rule, i + 1);
    CollectConcat(kept, NoteCandidate(st, rule, i), NoteCandidates(st, rule, i + 1));
  }

  /** Dropping records keeps the remaining slots unique. */
  lemma {:induction false} FilterKeepsSlotsUnique(s: seq<ChangeRecord>, p: ChangeRecord -> bool)
    requires SlotsUnique(s)
    ensures SlotsUnique(Filter(s, p))
    decreases |s|
  {
    if s != [] {
      var rest := Filter(s[1..], p);
      FilterKeepsSlotsUnique(s[1..], p);
      if p(s[0]) {
        var r := Filter(s, p);
        assert r == [s[0]] + rest;
        forall j | 0 < j < |r| ensures !InSlot(r[j], s[0].fieldName, s[0].stageName) {
          assert r[j] in rest;
          var k :| 0 <= k < |s[1..]| && s[1..][k] == r[j];
          assert s[k + 1] == r[j];
        }
      }
    }
  }
}

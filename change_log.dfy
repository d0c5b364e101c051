/**
 * The change records of the edit form (frontend/src/components/EditStatusModal.jsx):
 * the pending list kept while the user edits, the stage fields the form
 * edits, the milestone notes, and the save-time merge that turns the
 * pending list and the differences between the initial and the working
 * snapshot into the list of change records to log.
 */
module ChangeLog {
  import opened Base
  import opened Text
  import opened ProjectModel

  /** One change as the form logs it (the random `id` is left out). */
  datatype ChangeRecord = ChangeRecord(fieldName: string, previousValue: string, newValue: string, stageName: string)

  /** `v || "(empty)"`: the empty text is recorded as the marker "(empty)". */
  function OrEmpty(v: string): (r: string)
    ensures r != ""
    ensures v != "" ==> r == v
  {
    if v == "" then "(empty)" else v
  }

  // ---------------------------------------------------------------------
  // The pending list

  /** The pending list is keyed on (fieldName, stageName). */
  predicate InSlot(c: ChangeRecord, fieldName: string, stageName: string) {
    c.fieldName == fieldName && c.stageName == stageName
  }

  /** No two pending records share a (fieldName, stageName) slot. */
  predicate SlotsUnique(pending: seq<ChangeRecord>) {
    forall i, j :: 0 <= i < j < |pending| ==>
      !InSlot(pending[j], pending[i].fieldName, pending[i].stageName)
  }

  /** `findIndex` of the record in the slot. */
  function FindChange(pending: seq<ChangeRecord>, fieldName: string, stageName: string): (r: Option<nat>)
    ensures r.Some? ==> r.value < |pending| && InSlot(pending[r.value], fieldName, stageName)
    ensures r.Some? ==> forall j :: 0 <= j < r.value ==> !InSlot(pending[j], fieldName, stageName)
    ensures r.None? ==> forall j :: 0 <= j < |pending| ==> !InSlot(pending[j], fieldName, stageName)
    decreases |pending|
  {
    if pending == [] then None
    else if InSlot(pending[0], fieldName, stageName) then Some(0)
    else
      match FindChange(pending[1..], fieldName, stageName)
      case None => None
      case Some(j) => Some(j + 1)
  }

  /** The pending list after `addPendingChange(fieldName, previousValue, newValue, stageName)`. */
  function AddedChange(pending: seq<ChangeRecord>, fieldName: string, previousValue: string, newValue: string, stageName: string): seq<ChangeRecord> {
    match FindChange(pending, fieldName, stageName)
    case Some(i) => pending[i := pending[i].(newValue := OrEmpty(newValue))]
    case None => pending + [ChangeRecord(fieldName, OrEmpty(previousValue), OrEmpty(newValue), stageName)]
  }

  /** The pending list without the records of one slot (the revert branch's `filter`). */
  function RemoveChange(pending: seq<ChangeRecord>, fieldName: string, stageName: string): seq<ChangeRecord> {
    Filter(pending, (c: ChangeRecord) => !InSlot(c, fieldName, stageName))
  }

  /**
   * `addPendingChange` is an upsert: afterwards the slot holds exactly one
   * record, whose new value is the one just given and whose previous value
   * is the one recorded first; every other record stays where it was.
   */
  lemma AddedChangeUpserts(pending: seq<ChangeRecord>, fieldName: string, previousValue: string, newValue: string, stageName: string)
    requires SlotsUnique(pending)
    ensures var r := AddedChange(pending, fieldName, previousValue, newValue, stageName);
      SlotsUnique(r)
      && (exists i :: 0 <= i < |r| && InSlot(r[i], fieldName, stageName) && r[i].newValue == OrEmpty(newValue))
      && (forall i :: 0 <= i < |r| && InSlot(r[i], fieldName, stageName) ==>
            r[i].newValue == OrEmpty(newValue)
            && r[i].previousValue == (if FindChange(pending, fieldName, stageName).Some?
                                      then pending[FindChange(pending, fieldName, stageName).value].previousValue
                                      else OrEmpty(previousValue)))
      && |r| == |pending| + (if FindChange(pending, fieldName, stageName).Some? then 0 else 1)
      && forall i :: 0 <= i < |pending| && !InSlot(pending[i], fieldName, stageName) ==> r[i] == pending[i]
  {
    var r := AddedChange(pending, fieldName, previousValue, newValue, stageName);
    match FindChange(pending, fieldName, stageName)
    case Some(k) =>
      forall i, j | 0 <= i < j < |r| ensures !InSlot(r[j], r[i].fieldName, r[i].stageName) {
        assert InSlot(r[i], pending[i].fieldName, pending[i].stageName);
      }
      assert InSlot(r[k], fieldName, stageName);
    case None =>
      assert InSlot(r[|pending|], fieldName, stageName);
  }

  /**
   * Later edits of the same slot only move its new value: the previous value
   * recorded by the first edit is kept.
   */
  lemma AddedChangeTwice(pending: seq<ChangeRecord>, fieldName: string, stageName: string, p1: string, n1: string, p2: string, n2: string)
    ensures AddedChange(AddedChange(pending, fieldName, p1, n1, stageName), fieldName, p2, n2, stageName)
         == AddedChange(pending, fieldName, p1, n2, stageName)
  {
    var once := AddedChange(pending, fieldName, p1, n1, stageName);
    match FindChange(pending, fieldName, stageName)
    case Some(k) =>
      FindChangeAfterUpdate(pending, fieldName, stageName, k, pending[k].(newValue := OrEmpty(n1)));
    case None =>
      FindChangeAfterAppend(pending, fieldName, stageName, ChangeRecord(fieldName, OrEmpty(p1), OrEmpty(n1), stageName));
  }

  lemma FindChangeAfterUpdate(pending: seq<ChangeRecord>, fieldName: string, stageName: string, k: nat, c: ChangeRecord)
    requires FindChange(pending, fieldName, stageName) == Some(k) && InSlot(c, fieldName, stageName)
    ensures FindChange(pending[k := c], fieldName, stageName) == Some(k)
  {
    var r := FindChange(pending[k := c], fieldName, stageName);
    assert InSlot(pending[k := c][k], fieldName, stageName);
  }

  lemma FindChangeAfterAppend(pending: seq<ChangeRecord>, fieldName: string, stageName: string, c: ChangeRecord)
    requires FindChange(pending, fieldName, stageName).None? && InSlot(c, fieldName, stageName)
    ensures FindChange(pending + [c], fieldName, stageName) == Some(|pending|)
  {
    var r := FindChange(pending + [c], fieldName, stageName);
    assert InSlot((pending + [c])[|pending|], fieldName, stageName);
  }

  /** Removing a slot leaves no record in it and keeps every other record, in order. */
  lemma RemoveChangeClearsSlot(pending: seq<ChangeRecord>, fieldName: string, stageName: string)
    ensures var r := RemoveChange(pending, fieldName, stageName);
      (forall i :: 0 <= i < |r| ==> !InSlot(r[i], fieldName, stageName))
      && IsSubsequence(r, pending)
      && forall c :: c in pending && !InSlot(c, fieldName, stageName) ==> c in r
  {
    var r := RemoveChange(pending, fieldName, stageName);
    FilterIsSubsequence(pending, (c: ChangeRecord) => !InSlot(c, fieldName, stageName));
    forall i | 0 <= i < |r| ensures !InSlot(r[i], fieldName, stageName) {
      assert r[i] in r;
    }
  }

  /** An edit followed by its revert leaves the pending list as it was. */
  lemma RevertUndoesEdit(pending: seq<ChangeRecord>, fieldName: string, previousValue: string, newValue: string, stageName: string)
    requires FindChange(pending, fieldName, stageName).None?
    ensures RemoveChange(AddedChange(pending, fieldName, previousValue, newValue, stageName), fieldName, stageName) == pending
  {
    var p := (c: ChangeRecord) => !InSlot(c, fieldName, stageName);
    var c := ChangeRecord(fieldName, OrEmpty(previousValue), OrEmpty(newValue), stageName);
    FilterSnoc(pending, c, p);
    FilterAll(pending, p);
  }

  lemma {:induction false} FilterSnoc<T(!new)>(s: seq<T>, x: T, p: T -> bool)
    ensures Filter(s + [x], p) == Filter(s, p) + (if p(x) then [x] else [])
    decreases |s|
  {
    if s == [] {
      assert [] + [x] == [x];
      assert [x][1..] == [];
    } else {
      assert (s + [x])[0] == s[0];
      assert (s + [x])[1..] == s[1..] + [x];
      FilterSnoc(s[1..], x, p);
    }
  }

  // ---------------------------------------------------------------------
  // Stage fields

  /** The stage fields `handleStageChange` edits and names. */
  datatype StageField = Status | StageOwner | ActualStartDate | ActualEndDate | Remarks | StartDate | EndDate

  function FieldValue(s: Stage, f: StageField): string {
    match f
    case Status => s.status
    case StageOwner => s.stageOwner
    case ActualStartDate => s.actualStartDate
    case ActualEndDate => s.actualEndDate
    case Remarks => s.remarks
    case StartDate => s.startDate
    case EndDate => s.endDate
  }

  /** `{ ...stage, [field]: value }`. */
  function WithField(s: Stage, f: StageField, v: string): (r: Stage)
    ensures FieldValue(r, f) == v
    ensures forall g :: g != f ==> FieldValue(r, g) == FieldValue(s, g)
    ensures r.name == s.name && r.weight == s.weight
  {
    match f
    case Status => s.(status := v)
    case StageOwner => s.(stageOwner := v)
    case ActualStartDate => s.(actualStartDate := v)
    case ActualEndDate => s.(actualEndDate := v)
    case Remarks => s.(remarks := v)
    case StartDate => s.(startDate := v)
    case EndDate => s.(endDate := v)
  }

  /** The field's name in a change record. */
  function DisplayName(f: StageField): string {
    match f
    case Status => "Status"
    case StageOwner => "Stage Owner"
    case ActualStartDate => "Actual Start Date"
    case ActualEndDate => "Actual End Date"
    case Remarks => "Remarks"
    case StartDate => "Planned Start Date"
    case EndDate => "Planned End Date"
  }

  /**
   * The name the revert branch filters on: its table has no entry for the
   * planned dates, which fall back to the raw key.
   */
  function RevertName(f: StageField): string {
    match f
    case Status => "Status"
    case StageOwner => "Stage Owner"
    case ActualStartDate => "Actual Start Date"
    case ActualEndDate => "Actual End Date"
    case Remarks => "Remarks"
    case StartDate => "startDate"
    case EndDate => "endDate"
  }

  /** The five fields the form's inputs edit are reverted under the name they were recorded with. */
  lemma RevertNameMatchesForEditedFields(f: StageField)
    ensures RevertName(f) == DisplayName(f) <==> f !in {StartDate, EndDate}
  {
  }

  /** `stages[i]?.name || fallback`. */
  function StageLabel(stages: seq<Stage>, i: nat, fallback: string): string {
    if i < |stages| && stages[i].name != "" then stages[i].name else fallback
  }

  // ---------------------------------------------------------------------
  // Milestone notes

  /** The key `${stageIndex}-${milestoneIndex}` of a milestone note. */
  datatype MilestoneKey = MilestoneKey(stageIndex: nat, milestoneIndex: nat)

  /** A notes object, its keys in insertion order. */
  type Notes = seq<(MilestoneKey, string)>

  predicate NoteKeysUnique(notes: Notes) {
    forall i, j :: 0 <= i < j < |notes| ==> notes[i].0 != notes[j].0
  }

  /** `notes[k] || ""`. */
  function NoteOf(notes: Notes, k: MilestoneKey): string
    decreases |notes|
  {
    if notes == [] then "" else if notes[0].0 == k then notes[0].1 else NoteOf(notes[1..], k)
  }

  /** Notes that are all empty read empty on every key. */
  lemma {:induction false} NoteOfBlank(notes: Notes, k: MilestoneKey)
    requires forall i :: 0 <= i < |notes| ==> notes[i].1 == ""
    ensures NoteOf(notes, k) == ""
    decreases |notes|
  {
    if notes != [] && notes[0].0 != k {
      assert forall i :: 0 <= i < |notes[1..]| ==> notes[1..][i] == notes[i + 1];
      NoteOfBlank(notes[1..], k);
    }
  }

  /** `{ ...notes, [k]: v }`: an existing key keeps its place. */
  function WithNote(notes: Notes, k: MilestoneKey, v: string): (r: Notes)
    ensures |r| == |notes| || r == notes + [(k, v)]
    decreases |notes|
  {
    if notes == [] then [(k, v)]
    else if notes[0].0 == k then [(k, v)] + notes[1..]
    else [notes[0]] + WithNote(notes[1..], k, v)
  }

  /** Writing a note changes that note only, and keeps the keys unique. */
  lemma {:induction false} WithNoteReads(notes: Notes, k: MilestoneKey, v: string, other: MilestoneKey)
    requires NoteKeysUnique(notes)
    ensures NoteKeysUnique(WithNote(notes, k, v))
    ensures NoteOf(WithNote(notes, k, v), k) == v
    ensures other != k ==> NoteOf(WithNote(notes, k, v), other) == NoteOf(notes, other)
    decreases |notes|
  {
    if notes != [] && notes[0].0 != k {
      WithNoteReads(notes[1..], k, v, other);
      WithNoteKeys(notes[1..], k, v);
      var r := WithNote(notes, k, v);
      forall i, j | 0 <= i < j < |r| ensures r[i].0 != r[j].0 {
        if i == 0 {
          assert r[j] == WithNote(notes[1..], k, v)[j - 1];
          assert r[j].0 in KeysOf(notes[1..]) + {k};
        }
      }
    } else if notes != [] {
      var r := WithNote(notes, k, v);
      forall i, j | 0 <= i < j < |r| ensures r[i].0 != r[j].0 {
        assert r[j] == notes[j];
        if i > 0 {
          assert r[i] == notes[i];
        }
      }
    }
  }

  function KeysOf(notes: Notes): set<MilestoneKey> {
    set i | 0 <= i < |notes| :: notes[i].0
  }

  lemma {:induction false} WithNoteKeys(notes: Notes, k: MilestoneKey, v: string)
    ensures forall i :: 0 <= i < |WithNote(notes, k, v)| ==> WithNote(notes, k, v)[i].0 in KeysOf(notes) + {k}
    decreases |notes|
  {
    if notes != [] && notes[0].0 != k {
      WithNoteKeys(notes[1..], k, v);
      var r := WithNote(notes, k, v);
      forall i | 0 <= i < |r| ensures r[i].0 in KeysOf(notes) + {k} {
        if i > 0 {
          var x := WithNote(notes[1..], k, v)[i - 1].0;
          assert x in KeysOf(notes[1..]) + {k};
          if x in KeysOf(notes[1..]) {
            var m :| 0 <= m < |notes[1..]| && notes[1..][m].0 == x;
            assert notes[m + 1].0 == x;
          }
        } else {
          assert r[0] == notes[0];
        }
      }
    } else if notes != [] {
      var r := WithNote(notes, k, v);
      forall i | 0 <= i < |r| ensures r[i].0 in KeysOf(notes) + {k} {
        if i > 0 {
          assert r[i] == notes[i];
        }
      }
    }
  }

  /** `{ ...prev, ...incoming }`: incoming's notes written over prev one at a time. */
  function SpreadNotes(prev: Notes, incoming: Notes): Notes
    decreases |incoming|
  {
    if incoming == [] then prev else SpreadNotes(WithNote(prev, incoming[0].0, incoming[0].1), incoming[1..])
  }

  /** A spread keeps the keys unique and reads incoming's note on incoming's keys, prev's note elsewhere. */
  lemma {:induction false} SpreadNotesReads(prev: Notes, incoming: Notes, k: MilestoneKey)
    requires NoteKeysUnique(prev) && NoteKeysUnique(incoming)
    ensures NoteKeysUnique(SpreadNotes(prev, incoming))
    ensures NoteOf(SpreadNotes(prev, incoming), k) == if k in KeysOf(incoming) then NoteOf(incoming, k) else NoteOf(prev, k)
    decreases |incoming|
  {
    if incoming != [] {
      var k0, v0, rest := incoming[0].0, incoming[0].1, incoming[1..];
      WithNoteReads(prev, k0, v0, k);
      assert NoteKeysUnique(rest) by {
        forall i, j | 0 <= i < j < |rest| ensures rest[i].0 != rest[j].0 {
          assert rest[i] == incoming[i + 1] && rest[j] == incoming[j + 1];
        }
      }
      SpreadNotesReads(WithNote(prev, k0, v0), rest, k);
      KeysOfCons(incoming);
    }
  }

  lemma KeysOfCons(notes: Notes)
    requires notes != []
    ensures KeysOf(notes) == {notes[0].0} + KeysOf(notes[1..])
  {
    forall x | x in KeysOf(notes) ensures x in {notes[0].0} + KeysOf(notes[1..]) {
      var m :| 0 <= m < |notes| && notes[m].0 == x;
      if m > 0 {
        assert notes[1..][m - 1].0 == x;
      }
    }
    forall x | x in KeysOf(notes[1..]) ensures x in KeysOf(notes) {
      var m :| 0 <= m < |notes[1..]| && notes[1..][m].0 == x;
      assert notes[m + 1].0 == x;
    }
  }

  /** The stage name a milestone note is logged under: "Development - Milestone 3". */
  function MilestoneStageName(stages: seq<Stage>, k: MilestoneKey): string {
    StageLabel(stages, k.stageIndex, "Development") + " - Milestone " + NatToString(k.milestoneIndex + 1)
  }

  // ---------------------------------------------------------------------
  // The save-time merge `collectAllChanges`

  /** What the merge reads: the initial and the working snapshot, and the pending list. */
  datatype Snapshot = Snapshot(
    initialStages: seq<Stage>,
    stages: seq<Stage>,
    initialStartDate: string,
    startDate: string,
    initialEndDate: string,
    endDate: string,
    initialSummary: string,
    summary: string,
    pending: seq<ChangeRecord>,
    initialNotes: Notes,
    notes: Notes)

  /** A record the merge considers, with the key it deduplicates on. */
  datatype Candidate = Candidate(key: string, record: ChangeRecord)

  /** The dedup key: the four values joined with "-". */
  function JoinKey(fieldName: string, stageName: string, previousValue: string, newValue: string): string {
    fieldName + "-" + stageName + "-" + previousValue + "-" + newValue
  }

  function RecordKey(c: ChangeRecord): string {
    JoinKey(c.fieldName, c.stageName, c.previousValue, c.newValue)
  }

  /**
   * How the snapshot-diff blocks build their keys: as written, from the raw
   * values (while the project-level and milestone-note records hold
   * "(empty)" for ""); corrected, from the record itself, as the pending
   * block does.
   */
  datatype KeyRule = RawKeys | RecordKeys

  function Keyed(rule: KeyRule, rawKey: string, c: ChangeRecord): Candidate {
    Candidate(if rule == RawKeys then rawKey else RecordKey(c), c)
  }

  function PendingCandidates(pending: seq<ChangeRecord>): (r: seq<Candidate>)
    ensures |r| == |pending|
    ensures forall i :: 0 <= i < |pending| ==> r[i] == Candidate(RecordKey(pending[i]), pending[i])
  {
    seq(|pending|, i requires 0 <= i < |pending| => Candidate(RecordKey(pending[i]), pending[i]))
  }

  /** A project-level record, present only when the value changed. */
  function LevelCandidate(rule: KeyRule, fieldName: string, before: string, after: string): seq<Candidate> {
    if before != after then
      [Keyed(rule, JoinKey(fieldName, "N/A", before, after), ChangeRecord(fieldName, OrEmpty(before), OrEmpty(after), "N/A"))]
    else []
  }

  function ProjectCandidates(st: Snapshot, rule: KeyRule): seq<Candidate> {
    LevelCandidate(rule, "Planned Start Date", st.initialStartDate, st.startDate)
    + LevelCandidate(rule, "Planned End Date", st.initialEndDate, st.endDate)
    + LevelCandidate(rule, "Overall Project Summary", st.initialSummary, st.summary)
  }

  /** The five fields the per-stage diff checks, in its order. */
  const CheckedFields: seq<StageField> := [Status, StageOwner, ActualStartDate, ActualEndDate, Remarks]

  /** One field of a stage and its initial counterpart; raw values, the working stage's name. */
  function FieldCandidate(initial: Stage, current: Stage, f: StageField): seq<Candidate> {
    var before, after := FieldValue(initial, f), FieldValue(current, f);
    if before != after then
      [Candidate(JoinKey(DisplayName(f), current.name, before, after), ChangeRecord(DisplayName(f), before, after, current.name))]
    else []
  }

  function FieldCandidates(initial: Stage, current: Stage, j: nat): seq<Candidate>
    requires j <= |CheckedFields|
    decreases |CheckedFields| - j
  {
    if j == |CheckedFields| then []
    else FieldCandidate(initial, current, CheckedFields[j]) + FieldCandidates(initial, current, j + 1)
  }

  /** Stages i.. paired by index with their initial versions; a stage without one is skipped. */
  function StageCandidates(initialStages: seq<Stage>, stages: seq<Stage>, i: nat): seq<Candidate>
    decreases |stages| - i
  {
    if i >= |stages| then []
    else
      (if i < |initialStages| then FieldCandidates(initialStages[i], stages[i], 0) else [])
      + StageCandidates(initialStages, stages, i + 1)
  }

  /** What the merge considers for note i. */
  function NoteCandidate(st: Snapshot, rule: KeyRule, i: nat): seq<Candidate>
    requires i < |st.notes|
  {
    var k := st.notes[i].0;
    var before, after := NoteOf(st.initialNotes, k), NoteOf(st.notes, k);
    var name := MilestoneStageName(st.stages, k);
    if before != after then
      [Keyed(rule, JoinKey("Milestone Notes", name, before, after), ChangeRecord("Milestone Notes", OrEmpty(before), OrEmpty(after), name))]
    else []
  }

  function NoteCandidates(st: Snapshot, rule: KeyRule, i: nat): seq<Candidate>
    decreases |st.notes| - i
  {
    if i >= |st.notes| then []
    else
      var k := st.notes[i].0;
      var before, after := NoteOf(st.initialNotes, k), NoteOf(st.notes, k);
      var name := MilestoneStageName(st.stages, k);
      (if before != after then
         [Keyed(rule, JoinKey("Milestone Notes", name, before, after), ChangeRecord("Milestone Notes", OrEmpty(before), OrEmpty(after), name))]
       else [])
      + NoteCandidates(st, rule, i + 1)
  }

  /** Everything the merge considers, in its order. */
  function Candidates(st: Snapshot, rule: KeyRule): seq<Candidate> {
    PendingCandidates(st.pending) + ProjectCandidates(st, rule)
    + StageCandidates(st.initialStages, st.stages, 0) + NoteCandidates(st, rule, 0)
  }

  function KeySet(kept: seq<Candidate>): set<string> {
    set i | 0 <= i < |kept| :: kept[i].key
  }

  /** One step of the merge: a candidate whose key was seen is dropped. */
  function Consider(kept: seq<Candidate>, c: Candidate): seq<Candidate> {
    if c.key in KeySet(kept) then kept else kept + [c]
  }

  function Collect(kept: seq<Candidate>, cands: seq<Candidate>): seq<Candidate>
    decreases |cands|
  {
    if cands == [] then kept else Collect(Consider(kept, cands[0]), cands[1..])
  }

  function Records(kept: seq<Candidate>): (r: seq<ChangeRecord>)
    ensures |r| == |kept| && forall i :: 0 <= i < |kept| ==> r[i] == kept[i].record
  {
    seq(|kept|, i requires 0 <= i < |kept| => kept[i].record)
  }

  /** What `collectAllChanges` returns. */
  function AuditRecords(st: Snapshot, rule: KeyRule): seq<ChangeRecord> {
    Records(Collect([], Candidates(st, rule)))
  }

  predicate DistinctKeys(kept: seq<Candidate>) {
    forall i, j :: 0 <= i < j < |kept| ==> kept[i].key != kept[j].key
  }

  // Facts about the merge loop

  lemma {:induction false} CollectConcat(kept: seq<Candidate>, a: seq<Candidate>, b: seq<Candidate>)
    ensures Collect(kept, a + b) == Collect(Collect(kept, a), b)
    decreases |a|
  {
    if a == [] {
      assert a + b == b;
    } else {
      assert (a + b)[0] == a[0];
      assert (a + b)[1..] == a[1..] + b;
      CollectConcat(Consider(kept, a[0]), a[1..], b);
    }
  }

  lemma ConsiderKeys(kept: seq<Candidate>, c: Candidate)
    ensures KeySet(Consider(kept, c)) == KeySet(kept) + {c.key}
    ensures DistinctKeys(kept) ==> DistinctKeys(Consider(kept, c))
  {
    if c.key !in KeySet(kept) {
      var k := kept + [c];
      assert k[|kept|].key == c.key;
      forall x | x in KeySet(k) ensures x in KeySet(kept) + {c.key} {
        var i :| 0 <= i < |k| && k[i].key == x;
        if i < |kept| {
          assert kept[i].key == x;
        }
      }
      forall x | x in KeySet(kept) ensures x in KeySet(k) {
        var i :| 0 <= i < |kept| && kept[i].key == x;
        assert k[i].key == x;
      }
    }
  }

  /** The keys of a non-empty list: its first key and the keys of the rest. */
  lemma KeySetCons(cands: seq<Candidate>)
    requires cands != []
    ensures KeySet(cands) == {cands[0].key} + KeySet(cands[1..])
  {
    forall x | x in KeySet(cands) ensures x in {cands[0].key} + KeySet(cands[1..]) {
      var i :| 0 <= i < |cands| && cands[i].key == x;
      if i > 0 {
        assert cands[1..][i - 1].key == x;
      }
    }
    forall x | x in KeySet(cands[1..]) ensures x in KeySet(cands) {
      var i :| 0 <= i < |cands[1..]| && cands[1..][i].key == x;
      assert cands[i + 1].key == x;
    }
  }

  /** The merge keeps what it has, keeps every key once, and takes only candidates. */
  lemma {:induction false} CollectFacts(kept: seq<Candidate>, cands: seq<Candidate>)
    ensures var r := Collect(kept, cands);
      |r| >= |kept| && r[..|kept|] == kept
      && (DistinctKeys(kept) ==> DistinctKeys(r))
      && KeySet(r) == KeySet(kept) + KeySet(cands)
      && forall c :: c in r ==> c in kept || c in cands
    decreases |cands|
  {
    if cands != [] {
      var next := Consider(kept, cands[0]);
      ConsiderKeys(kept, cands[0]);
      CollectFacts(next, cands[1..]);
      var r := Collect(kept, cands);
      assert r[..|kept|] == r[..|next|][..|kept|];
      assert next[..|kept|] == kept;
      KeySetCons(cands);
      forall c | c in r ensures c in kept || c in cands {
        if c in next && c !in kept {
          assert c == cands[0];
        }
        if c in cands[1..] {
          var i :| 0 <= i < |cands[1..]| && cands[1..][i] == c;
          assert cands[i + 1] == c;
        }
      }
    }
  }

  /** Candidates with keys distinct from each other and from what is kept are all taken. */
  lemma {:induction false} CollectAllFresh(kept: seq<Candidate>, cands: seq<Candidate>)
    requires DistinctKeys(kept + cands)
    ensures Collect(kept, cands) == kept + cands
    decreases |cands|
  {
    if cands != [] {
      assert (kept + cands)[|kept|] == cands[0];
      forall i | 0 <= i < |kept| ensures kept[i].key != cands[0].key {
        assert (kept + cands)[i] == kept[i];
      }
      assert cands[0].key !in KeySet(kept);
      assert kept + cands == (kept + [cands[0]]) + cands[1..];
      CollectAllFresh(kept + [cands[0]], cands[1..]);
    }
  }

  // Properties of the merge

  /**
   * The merge emits one record per distinct key, taken from the candidates
   * in their order, and no key is lost.
   */
  lemma AuditRecordsOnePerKey(st: Snapshot, rule: KeyRule)
    ensures var kept := Collect([], Candidates(st, rule));
      AuditRecords(st, rule) == Records(kept)
      && DistinctKeys(kept)
      && KeySet(kept) == KeySet(Candidates(st, rule))
      && forall c :: c in kept ==> c in Candidates(st, rule)
  {
    CollectFacts([], Candidates(st, rule));
  }

  lemma CollectKeepsFreshPrefix(pc: seq<Candidate>, rest: seq<Candidate>)
    requires DistinctKeys(pc)
    ensures |Collect([], pc + rest)| >= |pc|
    ensures forall i :: 0 <= i < |pc| ==> Collect([], pc + rest)[i] == pc[i]
  {
    CollectConcat([], pc, rest);
    assert [] + pc == pc;
    CollectAllFresh([], pc);
    CollectFacts(pc, rest);
    forall i | 0 <= i < |pc| ensures Collect([], pc + rest)[i] == pc[i] {
      assert Collect(pc, rest)[..|pc|][i] == pc[i];
    }
  }

  /** The pending records come first, all of them and in order, when their keys differ. */
  lemma PendingComeFirst(st: Snapshot, rule: KeyRule)
    requires DistinctKeys(PendingCandidates(st.pending))
    ensures |AuditRecords(st, rule)| >= |st.pending|
    ensures AuditRecords(st, rule)[..|st.pending|] == st.pending
  {
    var pc := PendingCandidates(st.pending);
    var rest := SnapshotCandidates(st, rule);
    CandidatesSplit(st, rule);
    CollectKeepsFreshPrefix(pc, rest);
    var r := AuditRecords(st, rule);
    assert forall i :: 0 <= i < |st.pending| ==> r[i] == pc[i].record == st.pending[i];
  }

  /** The candidates after the pending block. */
  function SnapshotCandidates(st: Snapshot, rule: KeyRule): seq<Candidate> {
    ProjectCandidates(st, rule) + StageCandidates(st.initialStages, st.stages, 0) + NoteCandidates(st, rule, 0)
  }

  lemma CandidatesSplit(st: Snapshot, rule: KeyRule)
    ensures Candidates(st, rule) == PendingCandidates(st.pending) + SnapshotCandidates(st, rule)
  {
    GroupTail(PendingCandidates(st.pending), ProjectCandidates(st, rule),
              StageCandidates(st.initialStages, st.stages, 0), NoteCandidates(st, rule, 0));
  }

  /** Regrouping four blocks of candidates behind the first. */
  lemma GroupTail(a: seq<Candidate>, b: seq<Candidate>, c: seq<Candidate>, d: seq<Candidate>)
    ensures a + b + c + d == a + (b + c + d)
  {
  }

  /**
   * The project-level records carry the stage name "N/A", and each of the
   * three appears exactly when its initial and working values differ.
   */
  lemma ProjectLevelRecords(st: Snapshot, rule: KeyRule)
    ensures forall c :: c in ProjectCandidates(st, rule) ==> c.record.stageName == "N/A"
    ensures (exists c :: c in ProjectCandidates(st, rule) && c.record.fieldName == "Planned Start Date")
            <==> st.initialStartDate != st.startDate
    ensures (exists c :: c in ProjectCandidates(st, rule) && c.record.fieldName == "Planned End Date")
            <==> st.initialEndDate != st.endDate
    ensures (exists c :: c in ProjectCandidates(st, rule) && c.record.fieldName == "Overall Project Summary")
            <==> st.initialSummary != st.summary
    ensures forall c :: c in ProjectCandidates(st, rule) && c.record.fieldName == "Planned Start Date" ==>
            c.record == ChangeRecord("Planned Start Date", OrEmpty(st.initialStartDate), OrEmpty(st.startDate), "N/A")
  {
    var a := LevelCandidate(rule, "Planned Start Date", st.initialStartDate, st.startDate);
    var b := LevelCandidate(rule, "Planned End Date", st.initialEndDate, st.endDate);
    var c := LevelCandidate(rule, "Overall Project Summary", st.initialSummary, st.summary);
    var all := ProjectCandidates(st, rule);
    forall x | x in all
      ensures x.record.stageName == "N/A"
      ensures x.record.fieldName == "Planned Start Date" ==>
        x.record == ChangeRecord("Planned Start Date", OrEmpty(st.initialStartDate), OrEmpty(st.startDate), "N/A")
      ensures x.record.fieldName == "Planned Start Date" ==> st.initialStartDate != st.startDate
      ensures x.record.fieldName == "Planned End Date" ==> st.initialEndDate != st.endDate
      ensures x.record.fieldName == "Overall Project Summary" ==> st.initialSummary != st.summary
    {
      ProjectLevelMember(st, rule, x);
    }
    assert all == a + b + c;
    if a != [] {
      assert all[0] == a[0];
    }
    if b != [] {
      assert all[|a|] == b[0];
    }
    if c != [] {
      assert all[|a| + |b|] == c[0];
    }
  }

  /** One project-level candidate and the value change it comes from. */
  lemma ProjectLevelMember(st: Snapshot, rule: KeyRule, x: Candidate)
    requires x in ProjectCandidates(st, rule)
    ensures x.record.stageName == "N/A"
    ensures x.record.fieldName == "Planned Start Date" ==>
      x.record == ChangeRecord("Planned Start Date", OrEmpty(st.initialStartDate), OrEmpty(st.startDate), "N/A")
      && st.initialStartDate != st.startDate
    ensures x.record.fieldName == "Planned End Date" ==> st.initialEndDate != st.endDate
    ensures x.record.fieldName == "Overall Project Summary" ==> st.initialSummary != st.summary
  {
    LevelNamesDistinct();
    if x in LevelCandidate(rule, "Planned Start Date", st.initialStartDate, st.startDate) {
      InLevel(rule, "Planned Start Date", st.initialStartDate, st.startDate, x);
    } else if x in LevelCandidate(rule, "Planned End Date", st.initialEndDate, st.endDate) {
      InLevel(rule, "Planned End Date", st.initialEndDate, st.endDate, x);
    } else {
      InLevel(rule, "Overall Project Summary", st.initialSummary, st.summary, x);
    }
  }

  /** What a project-level candidate holds. */
  lemma InLevel(rule: KeyRule, name: string, before: string, after: string, x: Candidate)
    requires x in LevelCandidate(rule, name, before, after)
    ensures before != after
    ensures x.record == ChangeRecord(name, OrEmpty(before), OrEmpty(after), "N/A")
  {
  }

  lemma LevelNamesDistinct()
    ensures "Planned Start Date" != "Planned End Date"
    ensures "Planned Start Date" != "Overall Project Summary"
    ensures "Planned End Date" != "Overall Project Summary"
  {
    assert "Planned Start Date"[8] != "Planned End Date"[8];
    assert "Planned Start Date"[0] != "Overall Project Summary"[0];
    assert "Planned End Date"[0] != "Overall Project Summary"[0];
  }

  lemma FieldCandidateMeaning(initial: Stage, current: Stage, f: StageField, c: Candidate)
    ensures c in FieldCandidate(initial, current, f) <==>
      FieldValue(initial, f) != FieldValue(current, f)
      && c == Candidate(
        JoinKey(DisplayName(f), current.name, FieldValue(initial, f), FieldValue(current, f)),
        ChangeRecord(DisplayName(f), FieldValue(initial, f), FieldValue(current, f), current.name))
  {
  }

  lemma {:induction false} FieldCandidatesMembers(initial: Stage, current: Stage, j: nat, c: Candidate)
    requires j <= |CheckedFields|
    ensures c in FieldCandidates(initial, current, j) <==>
      exists m :: j <= m < |CheckedFields| && c in FieldCandidate(initial, current, CheckedFields[m])
    decreases |CheckedFields| - j
  {
    if j < |CheckedFields| {
      FieldCandidatesMembers(initial, current, j + 1, c);
    }
  }

  /** The index and the field a per-stage candidate comes from. */
  lemma {:induction false} StageCandidateSource(initialStages: seq<Stage>, stages: seq<Stage>, i: nat, c: Candidate)
    returns (x: nat, m: nat)
    requires c in StageCandidates(initialStages, stages, i)
    ensures i <= x < |stages| && x < |initialStages| && m < |CheckedFields|
    ensures c in FieldCandidate(initialStages[x], stages[x], CheckedFields[m])
    decreases |stages| - i
  {
    var here := if i < |initialStages| then FieldCandidates(initialStages[i], stages[i], 0) else [];
    var rest := StageCandidates(initialStages, stages, i + 1);
    assert StageCandidates(initialStages, stages, i) == here + rest;
    if c in here {
      FieldCandidatesMembers(initialStages[i], stages[i], 0, c);
      x := i;
      m :| 0 <= m < |CheckedFields| && c in FieldCandidate(initialStages[i], stages[i], CheckedFields[m]);
    } else {
      x, m := StageCandidateSource(initialStages, stages, i + 1, c);
    }
  }

  /** Every differing field of a stage with an initial counterpart yields its candidate. */
  lemma {:induction false} StageCandidateFromSource(initialStages: seq<Stage>, stages: seq<Stage>, i: nat, x: nat, m: nat, c: Candidate)
    requires i <= x < |stages| && x < |initialStages| && m < |CheckedFields|
    requires c in FieldCandidate(initialStages[x], stages[x], CheckedFields[m])
    ensures c in StageCandidates(initialStages, stages, i)
    decreases x - i
  {
    var here := if i < |initialStages| then FieldCandidates(initialStages[i], stages[i], 0) else [];
    var rest := StageCandidates(initialStages, stages, i + 1);
    assert StageCandidates(initialStages, stages, i) == here + rest;
    if x == i {
      FieldCandidatesMembers(initialStages[i], stages[i], 0, c);
      assert c in here;
    } else {
      StageCandidateFromSource(initialStages, stages, i + 1, x, m, c);
    }
  }

  /**
   * The per-stage diff pairs the working stage at index x with the initial
   * stage at the same index, skips indices the initial list lacks, checks
   * the five fields only, records raw values, and labels the record with
   * the working stage's name: a candidate is there exactly when such a
   * field differs.
   */
  lemma StageDiffPairsByIndex(initialStages: seq<Stage>, stages: seq<Stage>, c: Candidate)
    ensures c in StageCandidates(initialStages, stages, 0) <==>
      exists x, m :: 0 <= x < |stages| && x < |initialStages| && 0 <= m < |CheckedFields|
        && FieldValue(initialStages[x], CheckedFields[m]) != FieldValue(stages[x], CheckedFields[m])
        && c.record == ChangeRecord(DisplayName(CheckedFields[m]), FieldValue(initialStages[x], CheckedFields[m]),
                                    FieldValue(stages[x], CheckedFields[m]), stages[x].name)
        && c.key == RecordKey(c.record)
  {
    if c in StageCandidates(initialStages, stages, 0) {
      var x, m := StageCandidateSource(initialStages, stages, 0, c);
      FieldCandidateMeaning(initialStages[x], stages[x], CheckedFields[m], c);
    }
    if exists x, m :: 0 <= x < |stages| && x < |initialStages| && 0 <= m < |CheckedFields|
        && FieldValue(initialStages[x], CheckedFields[m]) != FieldValue(stages[x], CheckedFields[m])
        && c.record == ChangeRecord(DisplayName(CheckedFields[m]), FieldValue(initialStages[x], CheckedFields[m]),
                                    FieldValue(stages[x], CheckedFields[m]), stages[x].name)
        && c.key == RecordKey(c.record) {
      var x, m :| 0 <= x < |stages| && x < |initialStages| && 0 <= m < |CheckedFields|
        && FieldValue(initialStages[x], CheckedFields[m]) != FieldValue(stages[x], CheckedFields[m])
        && c.record == ChangeRecord(DisplayName(CheckedFields[m]), FieldValue(initialStages[x], CheckedFields[m]),
                                    FieldValue(stages[x], CheckedFields[m]), stages[x].name)
        && c.key == RecordKey(c.record);
      FieldCandidateMeaning(initialStages[x], stages[x], CheckedFields[m], c);
      StageCandidateFromSource(initialStages, stages, 0, x, m, c);
    }
  }

  lemma {:induction false} NoStageCandidatesWhenUnchanged(stages: seq<Stage>, i: nat)
    ensures StageCandidates(stages, stages, i) == []
    decreases |stages| - i
  {
    if i < |stages| {
      NoStageCandidatesWhenUnchanged(stages, i + 1);
      var s := stages[i];
      assert FieldCandidates(s, s, 0) == [] by {
        assert FieldCandidates(s, s, 5) == [];
        assert FieldCandidates(s, s, 4) == [];
        assert FieldCandidates(s, s, 3) == [];
        assert FieldCandidates(s, s, 2) == [];
        assert FieldCandidates(s, s, 1) == [];
      }
    }
  }

  lemma {:induction false} NoNoteCandidatesWhenUnchanged(st: Snapshot, rule: KeyRule, i: nat)
    requires forall k :: NoteOf(st.initialNotes, k) == NoteOf(st.notes, k)
    ensures NoteCandidates(st, rule, i) == []
    decreases |st.notes| - i
  {
    if i < |st.notes| {
      NoNoteCandidatesWhenUnchanged(st, rule, i + 1);
    }
  }

  /** A session with nothing pending and nothing edited logs nothing. */
  lemma UnchangedSessionLogsNothing(st: Snapshot, rule: KeyRule)
    requires st.pending == [] && st.stages == st.initialStages
    requires st.startDate == st.initialStartDate && st.endDate == st.initialEndDate && st.summary == st.initialSummary
    requires forall k :: NoteOf(st.initialNotes, k) == NoteOf(st.notes, k)
    ensures AuditRecords(st, rule) == []
  {
    NoStageCandidatesWhenUnchanged(st.stages, 0);
    NoNoteCandidatesWhenUnchanged(st, rule, 0);
    assert Candidates(st, rule) == [];
  }

  /**
   * An owner edited from "" to "Bob" is logged twice: once from the pending
   * list with "(empty)", once from the per-stage diff with the raw "".
   */
  lemma EmptyToValueLoggedTwice(st: Snapshot, rule: KeyRule, s0: Stage)
    requires s0.stageOwner == "" && st.initialStages == [s0] && st.stages == [s0.(stageOwner := "Bob")]
    requires st.pending == [ChangeRecord("Stage Owner", "(empty)", "Bob", s0.name)]
    requires st.startDate == st.initialStartDate && st.endDate == st.initialEndDate && st.summary == st.initialSummary
    requires st.notes == []
    ensures AuditRecords(st, rule)
         == [ChangeRecord("Stage Owner", "(empty)", "Bob", s0.name), ChangeRecord("Stage Owner", "", "Bob", s0.name)]
  {
    var s1 := s0.(stageOwner := "Bob");
    var p := ChangeRecord("Stage Owner", "(empty)", "Bob", s0.name);
    var d := ChangeRecord("Stage Owner", "", "Bob", s0.name);
    OwnerEditFields(s0, s1, d);
    assert StageCandidates(st.initialStages, st.stages, 1) == [];
    assert StageCandidates(st.initialStages, st.stages, 0) == [Candidate(RecordKey(d), d)];
    assert Candidates(st, rule) == [Candidate(RecordKey(p), p), Candidate(RecordKey(d), d)];
    EmptyKeysDiffer(p, d);
    TwoCandidates(Candidate(RecordKey(p), p), Candidate(RecordKey(d), d));
  }

  /** The per-stage diff of an owner edited from "" to "Bob" finds that one field. */
  lemma OwnerEditFields(s0: Stage, s1: Stage, d: ChangeRecord)
    requires s0.stageOwner == "" && s1 == s0.(stageOwner := "Bob")
    requires d == ChangeRecord("Stage Owner", "", "Bob", s0.name)
    ensures FieldCandidates(s0, s1, 0) == [Candidate(RecordKey(d), d)]
  {
    assert FieldCandidates(s0, s1, 5) == [];
    assert FieldCandidates(s0, s1, 4) == [];
    assert FieldCandidates(s0, s1, 3) == [];
    assert FieldCandidates(s0, s1, 2) == [];
    assert FieldCandidates(s0, s1, 1) == [Candidate(RecordKey(d), d)];
  }

  /** "(empty)" and "" make keys of different lengths. */
  lemma EmptyKeysDiffer(p: ChangeRecord, d: ChangeRecord)
    requires p.previousValue == "(empty)" && d.previousValue == ""
    requires p.fieldName == d.fieldName && p.stageName == d.stageName && p.newValue == d.newValue
    ensures RecordKey(p) != RecordKey(d)
  {
    assert |RecordKey(p)| != |RecordKey(d)|;
  }

  lemma KeySetOfOne(c: Candidate)
    ensures KeySet([c]) == {c.key}
  {
    assert [c][0].key == c.key;
  }

  /** Two candidates: the second is kept exactly when its key differs. */
  lemma TwoCandidates(a: Candidate, b: Candidate)
    ensures Collect([], [a, b]) == if a.key == b.key then [a] else [a, b]
  {
    assert KeySet([]) == {};
    assert Consider([], a) == [a];
    assert [a, b][1..] == [b];
    KeySetOfOne(a);
    assert Collect([], [a, b]) == Collect([a], [b]);
    assert [b][1..] == [];
    assert Collect([a], [b]) == Consider([a], b);
  }

  // The milestone-note key

  predicate KeyedByRecord(cands: seq<Candidate>) {
    forall c :: c in cands ==> c.key == RecordKey(c.record)
  }

  lemma {:induction false} NoteCandidatesKeyedByRecord(st: Snapshot, i: nat)
    ensures KeyedByRecord(NoteCandidates(st, RecordKeys, i))
    decreases |st.notes| - i
  {
    if i < |st.notes| {
      NoteCandidatesKeyedByRecord(st, i + 1);
      NoteCandidatesKeyedStep(st, i);
    }
  }

  lemma NoteCandidatesKeyedStep(st: Snapshot, i: nat)
    requires i < |st.notes| && KeyedByRecord(NoteCandidates(st, RecordKeys, i + 1))
    ensures KeyedByRecord(NoteCandidates(st, RecordKeys, i))
  {
    NoteCandidatesSplit(st, RecordKeys, i);
    NoteCandidateKeyedByRecord(st, i);
    KeyedByRecordConcat(NoteCandidate(st, RecordKeys, i), NoteCandidates(st, RecordKeys, i + 1));
  }

  lemma NoteCandidatesSplit(st: Snapshot, rule: KeyRule, i: nat)
    requires i < |st.notes|
    ensures NoteCandidates(st, rule, i) == NoteCandidate(st, rule, i) + NoteCandidates(st, rule, i + 1)
  {
  }

  lemma NoteCandidateKeyedByRecord(st: Snapshot, i: nat)
    requires i < |st.notes|
    ensures KeyedByRecord(NoteCandidate(st, RecordKeys, i))
  {
  }

  lemma KeyedByRecordConcat(a: seq<Candidate>, b: seq<Candidate>)
    requires KeyedByRecord(a) && KeyedByRecord(b)
    ensures KeyedByRecord(a + b)
  {
  }

  lemma {:induction false} StageCandidatesKeyedByRecord(initialStages: seq<Stage>, stages: seq<Stage>, i: nat)
    ensures KeyedByRecord(StageCandidates(initialStages, stages, i))
    decreases |stages| - i
  {
    forall c | c in StageCandidates(initialStages, stages, i) ensures c.key == RecordKey(c.record) {
      var x, m := StageCandidateSource(initialStages, stages, i, c);
      FieldCandidateMeaning(initialStages[x], stages[x], CheckedFields[m], c);
    }
  }

  /**
   * With the keys built from the records, the merge never logs the same
   * record twice.
   */
  lemma RecordKeysLogEachRecordOnce(st: Snapshot)
    ensures Distinct(AuditRecords(st, RecordKeys))
  {
    var cands := Candidates(st, RecordKeys);
    StageCandidatesKeyedByRecord(st.initialStages, st.stages, 0);
    NoteCandidatesKeyedByRecord(st, 0);
    ProjectCandidatesKeyedByRecord(st);
    KeyedByRecordJoin(PendingCandidates(st.pending), ProjectCandidates(st, RecordKeys),
                      StageCandidates(st.initialStages, st.stages, 0), NoteCandidates(st, RecordKeys, 0));
    var kept := Collect([], cands);
    CollectFacts([], cands);
    DistinctKeysDistinctRecords(kept, cands);
  }

  lemma ProjectCandidatesKeyedByRecord(st: Snapshot)
    ensures KeyedByRecord(ProjectCandidates(st, RecordKeys))
  {
  }

  lemma KeyedByRecordJoin(pending: seq<Candidate>, project: seq<Candidate>, stage: seq<Candidate>, notes: seq<Candidate>)
    requires forall i :: 0 <= i < |pending| ==> pending[i].key == RecordKey(pending[i].record)
    requires KeyedByRecord(project) && KeyedByRecord(stage) && KeyedByRecord(notes)
    ensures KeyedByRecord(pending + project + stage + notes)
  {
    forall c | c in pending + project + stage + notes
      ensures c.key == RecordKey(c.record)
    {
      if c in pending {
        var i :| 0 <= i < |pending| && pending[i] == c;
      }
    }
  }

  /** Kept candidates with distinct keys built from their records hold distinct records. */
  lemma DistinctKeysDistinctRecords(kept: seq<Candidate>, cands: seq<Candidate>)
    requires DistinctKeys(kept) && KeyedByRecord(cands)
    requires forall c :: c in kept ==> c in cands
    ensures Distinct(Records(kept))
  {
    var r := Records(kept);
    forall a, b | 0 <= a < b < |r| ensures r[a] != r[b] {
      assert kept[a] in kept && kept[b] in kept;
      assert kept[a].key != kept[b].key;
    }
  }

  /**
   * As written, a milestone note typed into an empty note is logged twice
   * with the same record: the pending entry's key holds "(empty)", the
   * note diff's key the raw "". Built from the records, the keys agree and
   * the record is logged once.
   */
  lemma NoteEditLoggedTwice(st: Snapshot, k: MilestoneKey, v: string)
    requires v != "" && st.initialNotes == [(k, "")] && st.notes == [(k, v)]
    requires st.pending == [ChangeRecord("Milestone Notes", "(empty)", v, MilestoneStageName(st.stages, k))]
    requires st.stages == st.initialStages
    requires st.startDate == st.initialStartDate && st.endDate == st.initialEndDate && st.summary == st.initialSummary
    ensures var r := ChangeRecord("Milestone Notes", "(empty)", v, MilestoneStageName(st.stages, k));
      AuditRecords(st, RawKeys) == [r, r] && AuditRecords(st, RecordKeys) == [r]
  {
    var name := MilestoneStageName(st.stages, k);
    var r := ChangeRecord("Milestone Notes", "(empty)", v, name);
    var raw := Candidate(JoinKey("Milestone Notes", name, "", v), r);
    NoteEditCandidates(st, k, v, r, raw);
    EmptyKeysDiffer(r, ChangeRecord("Milestone Notes", "", v, name));
    var cr := Candidate(RecordKey(r), r);
    TwoCandidates(cr, raw);
    TwoCandidates(cr, cr);
  }

  /** The note diff of a note edited from "" to `v`, under either key rule. */
  lemma NoteEditCandidates(st: Snapshot, k: MilestoneKey, v: string, r: ChangeRecord, raw: Candidate)
    requires v != "" && st.initialNotes == [(k, "")] && st.notes == [(k, v)]
    requires r == ChangeRecord("Milestone Notes", "(empty)", v, MilestoneStageName(st.stages, k))
    requires raw == Candidate(JoinKey("Milestone Notes", MilestoneStageName(st.stages, k), "", v), r)
    requires st.pending == [r] && st.stages == st.initialStages
    requires st.startDate == st.initialStartDate && st.endDate == st.initialEndDate && st.summary == st.initialSummary
    ensures Candidates(st, RawKeys) == [Candidate(RecordKey(r), r), raw]
    ensures Candidates(st, RecordKeys) == [Candidate(RecordKey(r), r), Candidate(RecordKey(r), r)]
  {
    NoStageCandidatesWhenUnchanged(st.stages, 0);
    assert ProjectCandidates(st, RawKeys) == [] && ProjectCandidates(st, RecordKeys) == [];
    assert PendingCandidates(st.pending) == [Candidate(RecordKey(r), r)];
    OneNoteEdit(st, k, v, r, raw);
    SingleBlocks(Candidate(RecordKey(r), r), raw, ProjectCandidates(st, RawKeys),
                 StageCandidates(st.initialStages, st.stages, 0), NoteCandidates(st, RawKeys, 0));
    SingleBlocks(Candidate(RecordKey(r), r), Candidate(RecordKey(r), r), ProjectCandidates(st, RecordKeys),
                 StageCandidates(st.initialStages, st.stages, 0), NoteCandidates(st, RecordKeys, 0));
  }

  /** The note diff of the one note edited from "" to `v`. */
  lemma OneNoteEdit(st: Snapshot, k: MilestoneKey, v: string, r: ChangeRecord, raw: Candidate)
    requires v != "" && st.initialNotes == [(k, "")] && st.notes == [(k, v)]
    requires r == ChangeRecord("Milestone Notes", "(empty)", v, MilestoneStageName(st.stages, k))
    requires raw == Candidate(JoinKey("Milestone Notes", MilestoneStageName(st.stages, k), "", v), r)
    ensures NoteCandidates(st, RawKeys, 0) == [raw]
    ensures NoteCandidates(st, RecordKeys, 0) == [Candidate(RecordKey(r), r)]
  {
    assert NoteOf(st.notes, k) == v;
    assert NoteCandidates(st, RawKeys, 1) == [] && NoteCandidates(st, RecordKeys, 1) == [];
  }

  /** One pending candidate, two empty blocks and one note candidate. */
  lemma SingleBlocks(a: Candidate, b: Candidate, p: seq<Candidate>, q: seq<Candidate>, n: seq<Candidate>)
    requires p == [] && q == [] && n == [b]
    ensures [a] + p + q + n == [a, b]
  {
  }
}

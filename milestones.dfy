/**
 * The date helpers of the edit form (frontend/src/components/EditStatusModal.jsx):
 * the display form of stored dates, the lenient "y-m-d" reader, and the
 * split of the Development stage into five milestone slices of 20% each.
 */
module Milestones {
  import opened Base
  import opened Text
  import opened Dates
  import opened ProjectModel

  // ---------------------------------------------------------------------
  // Display form

  /** The stored text matches /^(\d{4})-(\d{2})-(\d{2})$/. */
  predicate IsIsoShape(v: string) {
    |v| == 10 && v[4] == '-' && v[7] == '-'
    && AllDigits(v[..4]) && AllDigits(v[5..7]) && AllDigits(v[8..])
  }

  /**
   * `formatDateForDisplay`: "yyyy-mm-dd" becomes "dd-mm-yyyy"; "", the
   * marker "(empty)" and every other text are shown as they are.
   */
  function FormatDateForDisplay(v: string): (r: string)
    ensures |r| == |v|
    ensures !IsIsoShape(v) ==> r == v
    ensures IsIsoShape(v) ==> r[..2] == v[8..] && r[2] == '-' && r[3..5] == v[5..7] && r[5] == '-' && r[6..] == v[..4]
  {
    if v == "" || v == "(empty)" then v
    else if IsIsoShape(v) then v[8..] + "-" + v[5..7] + "-" + v[..4]
    else v
  }

  /** Showing a value twice is the same as showing it once. */
  lemma FormatDateForDisplayIdempotent(v: string)
    ensures FormatDateForDisplay(FormatDateForDisplay(v)) == FormatDateForDisplay(v)
  {
    var r := FormatDateForDisplay(v);
    if IsIsoShape(v) {
      assert r[2] == '-';
      assert !IsDigit(r[2]);
      assert r[..4][2] == r[2];
      assert !IsIsoShape(r);
    }
  }

  /** The display form loses nothing: the stored form can be read back from it. */
  lemma FormatDateForDisplayInvertible(v: string)
    requires IsIsoShape(v)
    ensures var r := FormatDateForDisplay(v); r[6..] + "-" + r[3..5] + "-" + r[..2] == v
  {
    var r := FormatDateForDisplay(v);
    assert v == v[..4] + "-" + v[5..7] + "-" + v[8..];
  }

  // ---------------------------------------------------------------------
  // The lenient reader `parseDateSafe`

  /** `s.split(c)` for a one-character separator. */
  function SplitOn(s: string, c: char): (parts: seq<string>)
    ensures |parts| >= 1
    decreases |s|
  {
    if s == [] then [""]
    else if s[0] == c then [""] + SplitOn(s[1..], c)
    else
      var rest := SplitOn(s[1..], c);
      [[s[0]] + rest[0]] + rest[1..]
  }

  lemma {:induction false} SplitOnNoSeparator(x: string, c: char)
    requires forall i :: 0 <= i < |x| ==> x[i] != c
    ensures SplitOn(x, c) == [x]
    decreases |x|
  {
    if x != [] {
      SplitOnNoSeparator(x[1..], c);
      assert [x[0]] + x[1..] == x;
    }
  }

  lemma {:induction false} SplitOnJoin(x: string, c: char, y: string)
    requires forall i :: 0 <= i < |x| ==> x[i] != c
    ensures SplitOn(x + [c] + y, c) == [x] + SplitOn(y, c)
    decreases |x|
  {
    if x == [] {
      assert x + [c] + y == [c] + y;
      assert ([c] + y)[1..] == y;
    } else {
      SplitOnJoin(x[1..], c, y);
      assert (x + [c] + y)[1..] == x[1..] + [c] + y;
      assert [x[0]] + x[1..] == x;
    }
  }

  /**
   * `Number(part)` for plain decimal text: surrounding white space is
   * ignored, blank text is 0, an optional sign may precede the digits;
   * anything else is NaN (`None`).
   */
  function NumberValue(part: string): Option<int> {
    var t := Trim(part);
    if t == "" then Some(0)
    else if (t[0] == '-' || t[0] == '+') && |t| > 1 && AllDigits(t[1..]) then
      var v: int := DigitsValue(t[1..]);
      if t[0] == '-' then Some(-v) else Some(v)
    else if AllDigits(t) then Some(DigitsValue(t))
    else None
  }

  /** How far a time value may lie from the epoch, in days (8.64e15 ms). */
  const MaxDayNumber := 100000000

  /**
   * `new Date(year, month - 1, day)`: years 0..99 mean 1900..1999, months
   * and days outside their range carry over; `None` is the invalid date.
   */
  function DateFromParts(year: int, month: int, day: int): (r: Option<int>)
    ensures r.Some? ==> -MaxDayNumber <= r.value <= MaxDayNumber
  {
    var fullYear := if 0 <= year <= 99 then 1900 + year else year;
    var monthIndex := month - 1;
    var z := DaysFromCivil(fullYear + monthIndex / 12, monthIndex % 12 + 1, day);
    if -MaxDayNumber <= z <= MaxDayNumber then Some(z) else None
  }

  /** `parseDateSafe`: the day of a "y-m-d" text, or `None` (null). */
  function ParseDateSafe(v: string): Option<int> {
    if v == "" then None
    else
      var parts := SplitOn(v, '-');
      if |parts| != 3 then None
      else
        var year, month, day := NumberValue(parts[0]), NumberValue(parts[1]), NumberValue(parts[2]);
        if year.None? || month.None? || day.None? || year.value == 0 || month.value == 0 || day.value == 0
        then None
        else DateFromParts(year.value, month.value, day.value)
  }

  lemma NumberValueOfDigits(t: string)
    requires t != [] && AllDigits(t)
    ensures NumberValue(t) == Some(DigitsValue(t))
  {
    assert !IsWhitespace(t[0]);
    assert TrimStart(t) == t;
    assert !IsWhitespace(t[|t| - 1]);
    assert TrimEnd(t) == t;
  }

  lemma SplitOnIsoShape(v: string)
    requires IsIsoShape(v)
    ensures SplitOn(v, '-') == [v[..4], v[5..7], v[8..]]
  {
    var y, m, d := v[..4], v[5..7], v[8..];
    assert v == y + ['-'] + (m + ['-'] + d);
    forall i | 0 <= i < |y| ensures y[i] != '-' { assert IsDigit(y[i]); }
    forall i | 0 <= i < |m| ensures m[i] != '-' { assert IsDigit(m[i]); }
    forall i | 0 <= i < |d| ensures d[i] != '-' { assert IsDigit(d[i]); }
    SplitOnJoin(y, '-', m + ['-'] + d);
    SplitOnJoin(m, '-', d);
    SplitOnNoSeparator(d, '-');
  }

  lemma DateFromPartsOfRealDate(year: int, month: int, day: int)
    requires 100 <= year < 10000 && 1 <= month <= 12 && 1 <= day <= 31
    ensures DateFromParts(year, month, day) == Some(DaysFromCivil(year, month, day))
  {
    assert (month - 1) / 12 == 0 && (month - 1) % 12 + 1 == month;
  }

  /**
   * On a valid "yyyy-mm-dd" text with a year of at least 100, the lenient
   * reader and the strict one agree on the day.
   */
  lemma ParseDateSafeAgreesWithParseIso(v: string)
    requires ParseIso(v).Some? && DigitsValue(v[..4]) >= 100
    ensures ParseDateSafe(v) == ParseIso(v)
  {
    var y, m, d := v[..4], v[5..7], v[8..];
    SplitOnIsoShape(v);
    NumberValueOfDigits(y);
    NumberValueOfDigits(m);
    NumberValueOfDigits(d);
    DigitsValueBelow(y);
    assert Pow10(4) == 10000;
    DateFromPartsOfRealDate(DigitsValue(y), DigitsValue(m), DigitsValue(d));
  }

  // ---------------------------------------------------------------------
  // Development milestones

  /** The five milestone slices, each asking for 20% of the stage. */
  const MilestoneCount := 5
  const MilestonePercentage := 20

  /** One milestone's range in day numbers, as shown (its end is its start when it has no day). */
  datatype MilestoneRange = MilestoneRange(start: int, end: int, days: int, percentage: nat)

  /**
   * The guard that keeps days for the milestones still to come, as written
   * (`daysForMilestone > remainingDays`) and as evidently intended
   * (`daysForMilestone > remainingDays - minRemaining`).
   */
  datatype Guard = AsWritten | Corrected

  /** `Math.round(totalDays * 20 / 100)`: the share rounded half up. */
  function RoundedShare(totalDays: int): int {
    (2 * totalDays * MilestonePercentage + 100) / 200
  }

  /** Days a milestone other than the last one asks for, after the guards. */
  function RequestedDays(totalDays: int, idx: nat, remainingDays: int, guard: Guard): int {
    var remainingMilestones := MilestoneCount - idx - 1;
    var share := Max(0, RoundedShare(totalDays));
    var minRemaining := Max(0, remainingMilestones);
    var limit := if guard == AsWritten then remainingDays else remainingDays - minRemaining;
    var capped := if share > limit then Max(0, remainingDays - minRemaining) else share;
    if capped == 0 && remainingDays > minRemaining then 1 else capped
  }

  /**
   * Milestone `idx` of the stage [s, e] after `used` days, and the days used
   * after it. The last milestone takes whatever is left; any other one gets
   * its requested days, cut off at the stage end.
   */
  function Step(s: int, e: int, idx: nat, used: int, guard: Guard): (MilestoneRange, int) {
    var totalDays := e - s + 1;
    var remainingDays := totalDays - used;
    var start := s + used;
    if idx == MilestoneCount - 1 then
      (MilestoneRange(start, if remainingDays > 0 then e else start, Max(remainingDays, 0), MilestonePercentage), totalDays)
    else
      var days := Min(RequestedDays(totalDays, idx, remainingDays, guard), remainingDays);
      (MilestoneRange(start, if days > 0 then start + days - 1 else start, Max(days, 0), MilestonePercentage), used + Max(days, 0))
  }

  /** Milestones idx..4 of the stage [s, e], the first of them starting after `used` days. */
  function Steps(s: int, e: int, idx: nat, used: int, guard: Guard): (r: seq<Option<MilestoneRange>>)
    requires idx <= MilestoneCount
    ensures |r| == MilestoneCount - idx
    decreases MilestoneCount - idx
  {
    if idx == MilestoneCount then []
    else
      var (m, used') := Step(s, e, idx, used, guard);
      [Some(m)] + Steps(s, e, idx + 1, used', guard)
  }

  lemma StepsUnfold(s: int, e: int, idx: nat, used: int, guard: Guard)
    requires idx < MilestoneCount
    ensures Steps(s, e, idx, used, guard)
         == [Some(Step(s, e, idx, used, guard).0)] + Steps(s, e, idx + 1, Step(s, e, idx, used, guard).1, guard)
  {
  }

  function NoRanges(): seq<Option<MilestoneRange>> {
    [None, None, None, None, None]
  }

  /** What `calculateDevelopmentMilestoneRanges` returns for a stage. */
  function MilestoneRanges(stage: Stage, guard: Guard): (r: seq<Option<MilestoneRange>>)
    ensures |r| == MilestoneCount
  {
    if stage.startDate == "" || stage.endDate == "" then NoRanges()
    else
      var start, end := ParseDateSafe(stage.startDate), ParseDateSafe(stage.endDate);
      if start.None? || end.None? || end.value < start.value then NoRanges()
      else Steps(start.value, end.value, 0, 0, guard)
  }

  /** One call of the `map` callback: milestone `idx`, and `usedDays` after it. */
  method NextMilestone(s: int, e: int, idx: nat, used: int, guard: Guard)
    returns (shown: MilestoneRange, usedDays: int)
    requires idx < MilestoneCount
    ensures (shown, usedDays) == Step(s, e, idx, used, guard)
  {
    var totalDays := e - s + 1;
    usedDays := used;
    var remainingMilestones := MilestoneCount - idx - 1;
    var remainingDays := totalDays - usedDays;
    var daysForMilestone;
    if idx == MilestoneCount - 1 {
      daysForMilestone := Max(0, remainingDays);
    } else {
      daysForMilestone := RoundedShare(totalDays);
      if daysForMilestone < 0 {
        daysForMilestone := 0;
      }
      var minRemaining := Max(0, remainingMilestones);
      var limit := if guard == AsWritten then remainingDays else remainingDays - minRemaining;
      if daysForMilestone > limit {
        daysForMilestone := Max(0, remainingDays - minRemaining);
      }
      if daysForMilestone == 0 && remainingDays > minRemaining {
        daysForMilestone := 1;
      }
    }
    var milestoneStart := s + usedDays;
    var milestoneEnd := milestoneStart;
    if daysForMilestone > 0 {
      milestoneEnd := milestoneEnd + daysForMilestone - 1;
    }
    if milestoneEnd > e {
      milestoneEnd := e;
      daysForMilestone := milestoneEnd - milestoneStart + 1;
    }
    usedDays := usedDays + Max(daysForMilestone, 0);
    if idx == MilestoneCount - 1 {
      milestoneEnd := e;
      usedDays := totalDays;
      daysForMilestone := Max(daysForMilestone, milestoneEnd - milestoneStart + 1);
    }
    shown := MilestoneRange(
      milestoneStart,
      if daysForMilestone > 0 then milestoneEnd else milestoneStart,
      Max(daysForMilestone, 0),
      MilestonePercentage);
  }

  method CalculateDevelopmentMilestoneRanges(stage: Stage, guard: Guard)
    returns (ranges: seq<Option<MilestoneRange>>)
    ensures ranges == MilestoneRanges(stage, guard)
  {
    if stage.startDate == "" || stage.endDate == "" {
      return NoRanges();
    }
    var start := ParseDateSafe(stage.startDate);
    var end := ParseDateSafe(stage.endDate);
    if start.None? || end.None? || end.value < start.value {
      return NoRanges();
    }
    ranges := MilestonesOfRange(start.value, end.value, guard);
  }

  /** The `map` over the five milestones of the stage [s, e]. */
  method MilestonesOfRange(s: int, e: int, guard: Guard) returns (ranges: seq<Option<MilestoneRange>>)
    ensures ranges == Steps(s, e, 0, 0, guard)
  {
    var usedDays := 0;
    ranges := [];
    var idx := 0;
    while idx < MilestoneCount
      invariant 0 <= idx <= MilestoneCount
      invariant ranges + Steps(s, e, idx, usedDays, guard) == Steps(s, e, 0, 0, guard)
    {
      ranges, usedDays := AppendMilestone(s, e, idx, usedDays, guard, ranges);
      idx := idx + 1;
    }
  }

  /** One round of the `map`: the milestone computed for `idx` appended to those before it. */
  method AppendMilestone(s: int, e: int, idx: nat, used: int, guard: Guard, done: seq<Option<MilestoneRange>>)
    returns (done': seq<Option<MilestoneRange>>, used': int)
    requires idx < MilestoneCount
    ensures done' + Steps(s, e, idx + 1, used', guard) == done + Steps(s, e, idx, used, guard)
  {
    var shown;
    shown, used' := NextMilestone(s, e, idx, used, guard);
    StepsUnfold(s, e, idx, used, guard);
    done' := done + [Some(shown)];
    var rest := Steps(s, e, idx + 1, used', guard);
    assert done' + rest == done + ([Some(shown)] + rest);
  }

  // ---------------------------------------------------------------------
  // Properties of the milestone split

  /** Every milestone is present and each starts where the previous one's days run out. */
  predicate Chained(r: seq<Option<MilestoneRange>>) {
    (forall k :: 0 <= k < |r| ==> r[k].Some?)
    && forall k :: 0 <= k < |r| - 1 ==> r[k + 1].value.start == r[k].value.start + r[k].value.days
  }

  /** The milestones cover the days s..e exactly, in order, each with at least one day. */
  predicate Partitions(r: seq<Option<MilestoneRange>>, s: int, e: int) {
    Chained(r) && |r| > 0
    && r[0].value.start == s && r[|r| - 1].value.end == e
    && forall k :: 0 <= k < |r| ==> r[k].value.days >= 1 && r[k].value.end == r[k].value.start + r[k].value.days - 1
  }

  lemma StepAdvances(s: int, e: int, idx: nat, used: int, guard: Guard)
    requires idx < MilestoneCount - 1
    ensures Step(s, e, idx, used, guard).0.start == s + used
    ensures Step(s, e, idx, used, guard).1 == used + Step(s, e, idx, used, guard).0.days
  {
  }

  /** A milestone followed by a chain that starts where its days run out is a chain. */
  lemma ChainedCons(m: MilestoneRange, rest: seq<Option<MilestoneRange>>)
    requires Chained(rest)
    requires rest != [] ==> rest[0].value.start == m.start + m.days
    ensures Chained([Some(m)] + rest)
  {
    var r := [Some(m)] + rest;
    assert forall k :: 0 < k < |r| ==> r[k] == rest[k - 1];
  }

  lemma {:induction false} StepsChained(s: int, e: int, idx: nat, used: int, guard: Guard)
    requires idx <= MilestoneCount
    ensures Chained(Steps(s, e, idx, used, guard))
    ensures idx < MilestoneCount ==> Steps(s, e, idx, used, guard)[0] == Some(Step(s, e, idx, used, guard).0)
    ensures idx < MilestoneCount ==> Steps(s, e, idx, used, guard)[0].value.start == s + used
    decreases MilestoneCount - idx
  {
    if idx < MilestoneCount {
      StepsUnfold(s, e, idx, used, guard);
      var (m, u) := Step(s, e, idx, used, guard);
      StepsChained(s, e, idx + 1, u, guard);
      if idx < MilestoneCount - 1 {
        StepAdvances(s, e, idx, used, guard);
      }
      ChainedCons(m, Steps(s, e, idx + 1, u, guard));
    }
  }

  lemma CorrectedStep(s: int, e: int, idx: nat, used: int, m: MilestoneRange, u: int)
    requires idx < MilestoneCount && 0 <= used && e - s + 1 - used >= MilestoneCount - idx
    requires m == Step(s, e, idx, used, Corrected).0 && u == Step(s, e, idx, used, Corrected).1
    ensures m.start == s + used && m.days >= 1 && m.end == m.start + m.days - 1 && m.end <= e
    ensures u == used + m.days
    ensures idx < MilestoneCount - 1 ==> e - s + 1 - u >= MilestoneCount - (idx + 1)
    ensures idx == MilestoneCount - 1 ==> m.end == e
  {
  }

  /** A milestone of at least one day followed by a partition of the days after it is a partition. */
  lemma PartitionsCons(m: MilestoneRange, rest: seq<Option<MilestoneRange>>, start: int, next: int, e: int)
    requires m.start == start && m.days >= 1 && m.end == m.start + m.days - 1 && next == start + m.days
    requires rest == [] ==> m.end == e
    requires rest != [] ==> Partitions(rest, next, e)
    ensures Partitions([Some(m)] + rest, start, e)
  {
    var r := [Some(m)] + rest;
    assert forall k :: 0 < k < |r| ==> r[k] == rest[k - 1];
    if rest != [] {
      assert r[|r| - 1] == rest[|rest| - 1];
    }
  }

  lemma {:induction false} CorrectedStepsPartition(s: int, e: int, idx: nat, used: int)
    requires idx < MilestoneCount && 0 <= used && e - s + 1 - used >= MilestoneCount - idx
    ensures Partitions(Steps(s, e, idx, used, Corrected), s + used, e)
    decreases MilestoneCount - idx
  {
    var m, u := Step(s, e, idx, used, Corrected).0, Step(s, e, idx, used, Corrected).1;
    var rest := Steps(s, e, idx + 1, u, Corrected);
    assert Steps(s, e, idx, used, Corrected) == [Some(m)] + rest by {
      StepsUnfold(s, e, idx, used, Corrected);
    }
    CorrectedStep(s, e, idx, used, m, u);
    if idx < MilestoneCount - 1 {
      CorrectedStepsPartition(s, e, idx + 1, u);
    }
    PartitionsAfterStep(s, e, idx, used, m, u, rest);
  }

  /** One corrected milestone in front of the partition of the days after it. */
  lemma PartitionsAfterStep(s: int, e: int, idx: nat, used: int, m: MilestoneRange, u: int, rest: seq<Option<MilestoneRange>>)
    requires idx < MilestoneCount && |rest| == MilestoneCount - (idx + 1)
    requires m.start == s + used && m.days >= 1 && m.end == m.start + m.days - 1 && u == used + m.days
    requires idx == MilestoneCount - 1 ==> m.end == e
    requires idx < MilestoneCount - 1 ==> Partitions(rest, s + u, e)
    ensures Partitions([Some(m)] + rest, s + used, e)
  {
    PartitionsCons(m, rest, s + used, s + u, e);
  }

  /** The stage's two dates, read as the milestone split reads them, when they form a range. */
  predicate StageSpans(stage: Stage, s: int, e: int) {
    ParseDateSafe(stage.startDate) == Some(s) && ParseDateSafe(stage.endDate) == Some(e) && s <= e
  }

  /**
   * The split yields five ranges exactly when both stage dates read as days
   * and the end is not before the start, and five nulls otherwise.
   */
  lemma MilestoneRangesAvailability(stage: Stage, guard: Guard)
    ensures var r := MilestoneRanges(stage, guard);
      (exists s, e :: StageSpans(stage, s, e)) <==> (forall k :: 0 <= k < |r| ==> r[k].Some?)
    ensures var r := MilestoneRanges(stage, guard);
      !(exists s, e :: StageSpans(stage, s, e)) ==> r == NoRanges()
  {
    var r := MilestoneRanges(stage, guard);
    var start, end := ParseDateSafe(stage.startDate), ParseDateSafe(stage.endDate);
    if start.Some? && end.Some? && start.value <= end.value {
      assert StageSpans(stage, start.value, end.value);
      StepsChained(start.value, end.value, 0, 0, guard);
    } else {
      assert r[0] == None;
    }
  }

  /**
   * Whatever the guard, each milestone starts where the previous one's days
   * run out, and the first starts on the stage's start.
   */
  lemma MilestoneRangesChained(stage: Stage, guard: Guard, s: int, e: int)
    requires StageSpans(stage, s, e)
    ensures var r := MilestoneRanges(stage, guard); Chained(r) && r[0].value.start == s
  {
    StepsChained(s, e, 0, 0, guard);
  }

  /**
   * With the corrected guard and a stage of at least five days, the five
   * milestones cover the stage day by day: each has at least one day, the
   * first starts on the stage's start and the last ends on its end.
   */
  lemma CorrectedMilestonesPartition(stage: Stage, s: int, e: int)
    requires StageSpans(stage, s, e) && e - s + 1 >= MilestoneCount
    ensures Partitions(MilestoneRanges(stage, Corrected), s, e)
  {
    CorrectedStepsPartition(s, e, 0, 0);
  }

  lemma AsWrittenEightDaySteps(s: int)
    ensures var r := Steps(s, s + 7, 0, 0, AsWritten);
      r[3] == Some(MilestoneRange(s + 6, s + 7, 2, 20)) && r[4] == Some(MilestoneRange(s + 8, s + 8, 0, 20))
  {
    var e := s + 7;
    assert RoundedShare(8) == 2;
    StepsUnfold(s, e, 0, 0, AsWritten);
    assert Step(s, e, 0, 0, AsWritten).1 == 2;
    StepsUnfold(s, e, 1, 2, AsWritten);
    assert Step(s, e, 1, 2, AsWritten).1 == 4;
    StepsUnfold(s, e, 2, 4, AsWritten);
    assert Step(s, e, 2, 4, AsWritten).1 == 6;
    StepsUnfold(s, e, 3, 6, AsWritten);
    assert Step(s, e, 3, 6, AsWritten) == (MilestoneRange(s + 6, s + 7, 2, 20), 8);
    StepsUnfold(s, e, 4, 8, AsWritten);
    assert Step(s, e, 4, 8, AsWritten).0 == MilestoneRange(s + 8, s + 8, 0, 20);
  }

  /**
   * As written, an eight-day stage gives the first four milestones two days
   * each and leaves the fifth with no day, starting the day after the stage
   * ends.
   */
  lemma AsWrittenEightDayStage(stage: Stage, s: int)
    requires StageSpans(stage, s, s + 7)
    ensures var r := MilestoneRanges(stage, AsWritten);
      r[3] == Some(MilestoneRange(s + 6, s + 7, 2, 20))
      && r[4] == Some(MilestoneRange(s + 8, s + 8, 0, 20))
    ensures !Partitions(MilestoneRanges(stage, AsWritten), s, s + 7)
  {
    AsWrittenEightDaySteps(s);
  }

  lemma ShareLeavesRoom(totalDays: int)
    requires totalDays >= MilestoneCount && totalDays != 8
    ensures 1 <= RoundedShare(totalDays) && 4 * RoundedShare(totalDays) + 1 <= totalDays
  {
  }

  /** A milestone of `q` days starting `used` days into the stage. */
  function ShareAt(s: int, used: int, q: int): Option<MilestoneRange> {
    Some(MilestoneRange(s + used, s + used + q - 1, q, MilestonePercentage))
  }

  /**
   * The split when every share fits, from milestone `k` on: the milestones
   * before the last get `q` days each, the last one the rest.
   */
  function EvenSplit(s: int, e: int, q: int, k: nat): seq<Option<MilestoneRange>>
    decreases MilestoneCount - k
  {
    if k >= MilestoneCount - 1 then [Some(MilestoneRange(s + 4 * q, e, e - s + 1 - 4 * q, MilestonePercentage))]
    else [ShareAt(s, k * q, q)] + EvenSplit(s, e, q, k + 1)
  }

  /** A milestone before the last whose share leaves a day for each later one gets exactly its share, under either guard. */
  lemma StepShare(s: int, e: int, idx: nat, used: int, guard: Guard)
    requires idx < MilestoneCount - 1
    requires 1 <= RoundedShare(e - s + 1) <= e - s + 1 - used - (MilestoneCount - 1 - idx)
    ensures var q := RoundedShare(e - s + 1);
      Step(s, e, idx, used, guard) == (MilestoneRange(s + used, s + used + q - 1, q, MilestonePercentage), used + q)
  {
  }

  /** The last milestone takes every day left. */
  lemma StepLast(s: int, e: int, used: int, guard: Guard)
    requires 0 <= used < e - s + 1
    ensures Step(s, e, MilestoneCount - 1, used, guard)
         == (MilestoneRange(s + used, e, e - s + 1 - used, MilestonePercentage), e - s + 1)
  {
  }

  /** For a stage of at least five days other than eight, either guard yields the even split. */
  lemma {:induction false} StepsEvenSplit(s: int, e: int, guard: Guard, k: nat)
    requires e - s + 1 >= MilestoneCount && e - s + 1 != 8
    requires k < MilestoneCount
    ensures Steps(s, e, k, k * RoundedShare(e - s + 1), guard) == EvenSplit(s, e, RoundedShare(e - s + 1), k)
    decreases MilestoneCount - k
  {
    if k == MilestoneCount - 1 {
      ShareLeavesRoom(e - s + 1);
      StepsFromLast(s, e, 4 * RoundedShare(e - s + 1), guard);
    } else {
      StepsEvenSplit(s, e, guard, k + 1);
      StepsEvenStep(s, e, guard, k);
    }
  }

  /** One milestone of the even split, given the rest. */
  lemma StepsEvenStep(s: int, e: int, guard: Guard, k: nat)
    requires e - s + 1 >= MilestoneCount && e - s + 1 != 8
    requires k < MilestoneCount - 1
    requires Steps(s, e, k + 1, (k + 1) * RoundedShare(e - s + 1), guard) == EvenSplit(s, e, RoundedShare(e - s + 1), k + 1)
    ensures Steps(s, e, k, k * RoundedShare(e - s + 1), guard) == EvenSplit(s, e, RoundedShare(e - s + 1), k)
  {
    var n, q := e - s + 1, RoundedShare(e - s + 1);
    ShareLeavesRoom(n);
    assert (k + 1) * q + (MilestoneCount - 1 - k) <= n by {
      MulMonotone(3 - k, 1, q);
      assert (k + 1) * q + (3 - k) * q == 4 * q;
    }
    StepsFromShare(s, e, k, k * q, (k + 1) * q, guard, EvenSplit(s, e, q, k + 1));
  }

  lemma StepsFromShare(s: int, e: int, idx: nat, used: int, next: int, guard: Guard, rest: seq<Option<MilestoneRange>>)
    requires idx < MilestoneCount - 1
    requires 1 <= RoundedShare(e - s + 1) <= e - s + 1 - used - (MilestoneCount - 1 - idx)
    requires next == used + RoundedShare(e - s + 1)
    requires Steps(s, e, idx + 1, next, guard) == rest
    ensures Steps(s, e, idx, used, guard) == [ShareAt(s, used, RoundedShare(e - s + 1))] + rest
  {
    StepShare(s, e, idx, used, guard);
    StepsUnfold(s, e, idx, used, guard);
  }

  lemma StepsFromLast(s: int, e: int, used: int, guard: Guard)
    requires 0 <= used < e - s + 1
    ensures Steps(s, e, MilestoneCount - 1, used, guard) == [Some(MilestoneRange(s + used, e, e - s + 1 - used, MilestonePercentage))]
  {
    StepLast(s, e, used, guard);
    StepsUnfold(s, e, MilestoneCount - 1, used, guard);
  }

  lemma GuardsAgreeWhenRoom(s: int, e: int)
    requires e - s + 1 >= MilestoneCount && e - s + 1 != 8
    ensures Steps(s, e, 0, 0, AsWritten) == Steps(s, e, 0, 0, Corrected)
  {
    StepsEvenSplit(s, e, AsWritten, 0);
    StepsEvenSplit(s, e, Corrected, 0);
  }

  /**
   * The guard as written goes wrong only for stages of eight days among
   * those of at least five: for every other length it splits the stage
   * exactly as the corrected one does.
   */
  lemma AsWrittenAgreesExceptEightDays(stage: Stage, s: int, e: int)
    requires StageSpans(stage, s, e) && e - s + 1 >= MilestoneCount && e - s + 1 != 8
    ensures MilestoneRanges(stage, AsWritten) == MilestoneRanges(stage, Corrected)
  {
    GuardsAgreeWhenRoom(s, e);
  }
}

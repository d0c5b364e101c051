/**
 * The weighted phase-date allocator (frontend/src/utils/dateCalculator.js).
 *
 * An inclusive range of days [s, e] is split into consecutive per-stage
 * ranges in proportion to the stage weights. Days are whole day numbers;
 * the text a stage carries is produced from a day number by `formatDate`,
 * a parameter standing for the source's `formatDate` ("yyyy-mm-dd" in
 * local time); `Dates.FormatIso` is the instance the edit form uses.
 *
 * The specification is stated on day numbers: `FirstPass` is each stage's
 * floored share, `Rank` is a stage's position in the stable order by
 * weight descending, `Allocation` adds one day to the stages whose rank is
 * below the number of days left over, and `PhaseStartDay`/`PhaseEndDay`
 * give each stage's range in closed form from the prefix sums of the
 * allocation, clamped to the overall end.
 */
module DateCalculator {
  import opened Base
  import opened Dates
  import opened ProjectModel

  function Weights(stages: seq<Stage>): (ws: seq<nat>)
    ensures |ws| == |stages| && forall i :: 0 <= i < |stages| ==> ws[i] == stages[i].weight
  {
    seq(|stages|, i requires 0 <= i < |stages| => stages[i].weight)
  }

  lemma {:induction false} TotalWeightIsSum(stages: seq<Stage>)
    ensures TotalWeight(stages) == Sum(Weights(stages))
    decreases |stages|
  {
    if stages != [] {
      TotalWeightIsSum(stages[1..]);
      SumFront(Weights(stages));
      assert Weights(stages)[1..] == Weights(stages[1..]);
    }
  }

  // ---------------------------------------------------------------------
  // The stable order by weight descending (`sort((a, b) => b.weight - a.weight)`)

  /** Stage `a` comes before stage `b`: heavier, or as heavy and earlier. */
  predicate Precedes(ws: seq<nat>, a: nat, b: nat)
    requires a < |ws| && b < |ws|
  {
    ws[a] > ws[b] || (ws[a] == ws[b] && a < b)
  }

  /** How many of the stages 0..m-1 come before stage `x`. */
  function RankBelow(ws: seq<nat>, x: nat, m: nat): (r: nat)
    requires x < |ws| && m <= |ws|
    ensures r <= m
    decreases m
  {
    if m == 0 then 0
    else RankBelow(ws, x, m - 1) + (if Precedes(ws, m - 1, x) then 1 else 0)
  }

  /** Position of stage `x` in the stable order by weight descending. */
  function Rank(ws: seq<nat>, x: nat): nat
    requires x < |ws|
  {
    RankBelow(ws, x, |ws|)
  }

  /**
   * The stages 0..m-1 in stable order by weight descending, built by
   * inserting each stage after every earlier stage that comes before it.
   */
  function StableOrder(ws: seq<nat>, m: nat): (order: seq<nat>)
    requires m <= |ws|
    ensures |order| == m
    decreases m
  {
    if m == 0 then []
    else
      var o := StableOrder(ws, m - 1);
      var pos := RankBelow(ws, m - 1, m - 1);
      o[..pos] + [m - 1] + o[pos..]
  }

  /** A stage that comes before another has a strictly smaller rank. */
  lemma {:induction false} RankBelowMonotone(ws: seq<nat>, x: nat, y: nat, m: nat)
    requires x < |ws| && y < |ws| && m <= |ws| && Precedes(ws, x, y)
    ensures RankBelow(ws, x, m) + (if x < m then 1 else 0) <= RankBelow(ws, y, m)
    decreases m
  {
    if m > 0 {
      RankBelowMonotone(ws, x, y, m - 1);
    }
  }

  /** The element at position p of the stable order has rank p, and every stage occurs. */
  lemma {:induction false} StableOrderRanks(ws: seq<nat>, m: nat)
    requires m <= |ws|
    ensures forall p :: 0 <= p < m ==>
      StableOrder(ws, m)[p] < m && RankBelow(ws, StableOrder(ws, m)[p], m) == p
    ensures forall j :: 0 <= j < m ==> j in StableOrder(ws, m)
    decreases m
  {
    if m > 0 {
      var i := m - 1;
      var o := StableOrder(ws, i);
      StableOrderRanks(ws, i);
      var pos := RankBelow(ws, i, i);
      var order := StableOrder(ws, m);
      assert order == o[..pos] + [i] + o[pos..];
      forall p | 0 <= p < m
        ensures order[p] < m && RankBelow(ws, order[p], m) == p
      {
        if p < pos {
          var x := o[p];
          assert order[p] == x;
          if Precedes(ws, i, x) {
            RankBelowMonotone(ws, i, x, i);
            assert false;
          }
        } else if p == pos {
          assert order[p] == i;
        } else {
          var x := o[p - 1];
          assert order[p] == x;
          if !Precedes(ws, i, x) {
            RankBelowMonotone(ws, x, i, i);
            assert false;
          }
        }
      }
      forall j | 0 <= j < m
        ensures j in order
      {
        if j < i {
          assert j in o;
          var q :| 0 <= q < i && o[q] == j;
          if q < pos {
            assert order[q] == j;
          } else {
            assert order[q + 1] == j;
          }
        } else {
          assert order[pos] == i;
        }
      }
    }
  }

  /** Every stage's rank is a position of the stable order, and that position holds the stage. */
  lemma RankPosition(ws: seq<nat>, x: nat)
    requires x < |ws|
    ensures Rank(ws, x) < |ws| && StableOrder(ws, |ws|)[Rank(ws, x)] == x
  {
    var order := StableOrder(ws, |ws|);
    StableOrderRanks(ws, |ws|);
    assert x in order;
    var p :| 0 <= p < |ws| && order[p] == x;
    assert RankBelow(ws, order[p], |ws|) == p;
  }

  /**
   * The extra days go to the heaviest stages: a stage ranked below k is at
   * least as heavy as one ranked k or later, and if equally heavy it is
   * the earlier of the two.
   */
  lemma ExtraDaysGoToHeaviest(ws: seq<nat>, k: nat, x: nat, y: nat)
    requires x < |ws| && y < |ws|
    requires Rank(ws, x) < k <= Rank(ws, y)
    ensures ws[x] >= ws[y]
    ensures ws[x] == ws[y] ==> x < y
  {
    if Precedes(ws, y, x) {
      RankBelowMonotone(ws, y, x, |ws|);
      assert false;
    }
  }

  // ---------------------------------------------------------------------
  // Day allocation

  /** First pass: each stage gets max(1, floor(weight * totalDays / totalWeight)) days. */
  function FirstPass(ws: seq<nat>, totalDays: int, totalWeight: nat): (days: seq<int>)
    requires totalWeight > 0
    ensures |days| == |ws|
  {
    seq(|ws|, i requires 0 <= i < |ws| => Max(1, ws[i] * totalDays / totalWeight))
  }

  /** Days still to hand out after the first pass (negative when it over-allocated). */
  function Remainder(ws: seq<nat>, totalDays: int, totalWeight: nat): int
    requires totalWeight > 0
  {
    totalDays - Sum(FirstPass(ws, totalDays, totalWeight))
  }

  /** How many stages receive one extra day. */
  function ExtraCount(ws: seq<nat>, totalDays: int, totalWeight: nat): nat
    requires totalWeight > 0
  {
    var rem := Remainder(ws, totalDays, totalWeight);
    if rem > 0 then Min(rem, |ws|) else 0
  }

  /** 1 for the stages ranked below k, 0 for the others. */
  function ExtraFlags(ws: seq<nat>, k: nat): (flags: seq<int>)
    ensures |flags| == |ws|
  {
    seq(|ws|, x requires 0 <= x < |ws| => if Rank(ws, x) < k then 1 else 0)
  }

  /** Final number of days of each stage. */
  function Allocation(ws: seq<nat>, totalDays: int, totalWeight: nat): (days: seq<int>)
    requires totalWeight > 0
    ensures |days| == |ws|
  {
    Plus(FirstPass(ws, totalDays, totalWeight), ExtraFlags(ws, ExtraCount(ws, totalDays, totalWeight)))
  }

  lemma AllocationPositive(ws: seq<nat>, totalDays: int, totalWeight: nat)
    requires totalWeight > 0
    ensures forall i :: 0 <= i < |ws| ==> Allocation(ws, totalDays, totalWeight)[i] >= 1
  {
  }

  /** Raising the bound from k to k + 1 adds exactly the stage at position k of the stable order. */
  lemma ExtraFlagsStep(ws: seq<nat>, k: nat)
    requires k < |ws|
    ensures forall x :: 0 <= x < |ws| ==>
      ExtraFlags(ws, k + 1)[x] == ExtraFlags(ws, k)[x] + (if x == StableOrder(ws, |ws|)[k] then 1 else 0)
  {
    forall x | 0 <= x < |ws|
      ensures ExtraFlags(ws, k + 1)[x] == ExtraFlags(ws, k)[x] + (if x == StableOrder(ws, |ws|)[k] then 1 else 0)
    {
      RankPosition(ws, x);
      StableOrderRanks(ws, |ws|);
    }
  }

  /** Exactly k stages are ranked below k. */
  lemma {:induction false} ExtraFlagsCount(ws: seq<nat>, k: nat)
    requires k <= |ws|
    ensures Sum(ExtraFlags(ws, k)) == k
    decreases k
  {
    if k == 0 {
      SumZeros(ExtraFlags(ws, 0));
    } else {
      ExtraFlagsCount(ws, k - 1);
      var j := StableOrder(ws, |ws|)[k - 1];
      var hot := seq(|ws|, x requires 0 <= x < |ws| => if x == j then 1 else 0);
      ExtraFlagsStep(ws, k - 1);
      StableOrderRanks(ws, |ws|);
      assert ExtraFlags(ws, k) == Plus(ExtraFlags(ws, k - 1), hot);
      SumPlus(ExtraFlags(ws, k - 1), hot);
      SumOneHot(hot, j);
    }
  }

  /** The final allocation adds exactly `ExtraCount` days to the first pass. */
  lemma AllocationSum(ws: seq<nat>, totalDays: int, totalWeight: nat)
    requires totalWeight > 0
    ensures Sum(Allocation(ws, totalDays, totalWeight))
      == Sum(FirstPass(ws, totalDays, totalWeight)) + ExtraCount(ws, totalDays, totalWeight)
  {
    var k := ExtraCount(ws, totalDays, totalWeight);
    SumPlus(FirstPass(ws, totalDays, totalWeight), ExtraFlags(ws, k));
    ExtraFlagsCount(ws, k);
  }

  /** One stage's floored share loses less than one day: W * f >= w * T - (W - 1). */
  lemma FloorShareLowerBound(w: nat, totalDays: int, totalWeight: nat)
    requires totalWeight > 0
    ensures totalWeight * Max(1, w * totalDays / totalWeight) >= w * totalDays - (totalWeight - 1)
  {
    var q := w * totalDays / totalWeight;
    assert w * totalDays == totalWeight * q + (w * totalDays) % totalWeight;
    MulMonotone(totalWeight, q, Max(1, q));
  }

  lemma {:induction false} FirstPassLowerBound(ws: seq<nat>, totalDays: int, totalWeight: nat, m: nat)
    requires totalWeight > 0 && m <= |ws|
    ensures totalWeight * Sum(FirstPass(ws, totalDays, totalWeight)[..m])
      >= totalDays * Sum(ws[..m]) - m * (totalWeight - 1)
    decreases m
  {
    if m > 0 {
      var f := FirstPass(ws, totalDays, totalWeight);
      FirstPassLowerBound(ws, totalDays, totalWeight, m - 1);
      SumPrefixStep(f, m - 1);
      SumPrefixStep(ws, m - 1);
      FloorShareLowerBound(ws[m - 1], totalDays, totalWeight);
      LowerBoundStep(totalWeight, Sum(f[..m - 1]), f[m - 1], totalDays, Sum(ws[..m - 1]), ws[m - 1], m - 1);
    }
  }

  lemma LowerBoundStep(w: int, a: int, x: int, t: int, b: int, y: int, m: int)
    requires w * x >= y * t - (w - 1)
    requires w * a >= t * b - m * (w - 1)
    ensures w * (a + x) >= t * (b + y) - (m + 1) * (w - 1)
  {
    assert w * (a + x) == w * a + w * x;
    assert t * (b + y) == t * b + y * t;
    assert (m + 1) * (w - 1) == m * (w - 1) + (w - 1);
  }

  /**
   * The days left over after the first pass are fewer than the number of
   * stages, so every one of them is handed out.
   */
  lemma RemainderBelowCount(ws: seq<nat>, totalDays: int, totalWeight: nat)
    requires totalWeight > 0 && totalWeight == Sum(ws)
    ensures Remainder(ws, totalDays, totalWeight) < |ws|
  {
    var f := FirstPass(ws, totalDays, totalWeight);
    var n := |ws|;
    FirstPassLowerBound(ws, totalDays, totalWeight, n);
    assert f[..n] == f && ws[..n] == ws;
    if n == 0 {
      assert false;
    }
    FloorSumAboveCount(totalWeight, Sum(f), totalDays, n);
  }

  lemma FloorSumAboveCount(w: int, total: int, t: int, n: int)
    requires w > 0 && n > 0
    requires w * total >= t * w - n * (w - 1)
    ensures total > t - n
  {
    if total <= t - n {
      MulMonotone(w, total, t - n);
      assert false;
    }
  }

  lemma {:induction false} FirstPassUpperBound(ws: seq<nat>, totalDays: int, totalWeight: nat, m: nat)
    requires totalWeight > 0 && m <= |ws|
    requires forall i :: 0 <= i < |ws| ==> ws[i] * totalDays >= totalWeight
    ensures totalWeight * Sum(FirstPass(ws, totalDays, totalWeight)[..m]) <= totalDays * Sum(ws[..m])
    decreases m
  {
    if m > 0 {
      var f := FirstPass(ws, totalDays, totalWeight);
      FirstPassUpperBound(ws, totalDays, totalWeight, m - 1);
      SumPrefixStep(f, m - 1);
      SumPrefixStep(ws, m - 1);
      FloorShareUpperBound(ws[m - 1], totalDays, totalWeight);
      UpperBoundStep(totalWeight, Sum(f[..m - 1]), f[m - 1], totalDays, Sum(ws[..m - 1]), ws[m - 1]);
    }
  }

  /** A share of at least one day is not raised by the one-day minimum: W * f <= w * T. */
  lemma FloorShareUpperBound(w: nat, totalDays: int, totalWeight: nat)
    requires totalWeight > 0 && w * totalDays >= totalWeight
    ensures totalWeight * Max(1, w * totalDays / totalWeight) <= w * totalDays
  {
    var x := w * totalDays;
    DivAtLeast(x, totalWeight, 1);
    assert x == totalWeight * (x / totalWeight) + x % totalWeight;
  }

  lemma UpperBoundStep(w: int, a: int, x: int, t: int, b: int, y: int)
    requires w * x <= y * t
    requires w * a <= t * b
    ensures w * (a + x) <= t * (b + y)
  {
    assert w * (a + x) == w * a + w * x;
    assert t * (b + y) == t * b + y * t;
  }

  /**
   * When every stage's share is at least one day, the first pass never
   * hands out more days than the range holds.
   */
  lemma FirstPassFits(ws: seq<nat>, totalDays: int, totalWeight: nat)
    requires totalWeight > 0 && totalWeight == Sum(ws)
    requires forall i :: 0 <= i < |ws| ==> ws[i] * totalDays >= totalWeight
    ensures Sum(FirstPass(ws, totalDays, totalWeight)) <= totalDays
  {
    var f := FirstPass(ws, totalDays, totalWeight);
    var n := |ws|;
    FirstPassUpperBound(ws, totalDays, totalWeight, n);
    assert f[..n] == f && ws[..n] == ws;
    CancelFactor(totalWeight, Sum(f), totalDays);
  }

  lemma CancelFactor(w: int, a: int, b: int)
    requires w > 0 && w * a <= b * w
    ensures a <= b
  {
    if a > b {
      MulMonotone(w, b + 1, a);
    }
  }

  /**
   * Unless the first pass over-allocated (only possible through the
   * one-day minimum), the final allocation uses exactly the days of the
   * range: the shortfall is spread one day each over as many stages.
   */
  lemma AllocationUsesAllDays(ws: seq<nat>, totalDays: int, totalWeight: nat)
    requires totalWeight > 0 && totalWeight == Sum(ws)
    requires Sum(FirstPass(ws, totalDays, totalWeight)) <= totalDays
    ensures ExtraCount(ws, totalDays, totalWeight) == Remainder(ws, totalDays, totalWeight)
    ensures Sum(Allocation(ws, totalDays, totalWeight)) == totalDays
  {
    RemainderBelowCount(ws, totalDays, totalWeight);
    AllocationSum(ws, totalDays, totalWeight);
  }

  // ---------------------------------------------------------------------
  // Layout

  /** Number of days of the range [s, e], both ends included. */
  function DayCount(s: int, e: int): int {
    e - s + 1
  }

  /** First day of stage i: the day after the previous stages, at latest e + 1. */
  function PhaseStartDay(alloc: seq<int>, s: int, e: int, i: nat): int
    requires i <= |alloc|
  {
    Min(s + Sum(alloc[..i]), e + 1)
  }

  /** Last day of stage i as the layout loop computes it, clamped to e. */
  function PhaseEndDay(alloc: seq<int>, s: int, e: int, i: nat): int
    requires i < |alloc|
  {
    Min(s + Sum(alloc[..i + 1]) - 1, e)
  }

  /** One turn of the layout loop: the clamped end and the next start, in closed form. */
  lemma LayoutStep(alloc: seq<int>, s: int, e: int, i: nat)
    requires i < |alloc| && alloc[i] >= 1
    ensures Min(PhaseStartDay(alloc, s, e, i) + alloc[i] - 1, e) == PhaseEndDay(alloc, s, e, i)
    ensures PhaseEndDay(alloc, s, e, i) + 1 == PhaseStartDay(alloc, s, e, i + 1)
  {
    SumPrefixStep(alloc, i);
  }

  /**
   * Whatever the allocation: the first stage starts on s, each later stage
   * starts the day after the previous one ends, and no end passes e.
   */
  lemma LayoutChained(alloc: seq<int>, s: int, e: int)
    requires s <= e
    ensures |alloc| > 0 ==> PhaseStartDay(alloc, s, e, 0) == s
    ensures forall i :: 0 <= i < |alloc| ==> PhaseEndDay(alloc, s, e, i) <= e
    ensures forall i :: 0 < i < |alloc| ==> PhaseStartDay(alloc, s, e, i) == PhaseEndDay(alloc, s, e, i - 1) + 1
  {
    assert alloc[..0] == [];
  }

  /**
   * When the allocation uses exactly the days of the range, the stages
   * partition it: each stage's range holds exactly its allocated days, and
   * the last one ends on e.
   */
  lemma LayoutPartitions(alloc: seq<int>, s: int, e: int)
    requires s <= e && |alloc| > 0
    requires forall i :: 0 <= i < |alloc| ==> alloc[i] >= 1
    requires Sum(alloc) == DayCount(s, e)
    ensures forall i :: 0 <= i < |alloc| ==>
      PhaseEndDay(alloc, s, e, i) - PhaseStartDay(alloc, s, e, i) + 1 == alloc[i]
    ensures PhaseEndDay(alloc, s, e, |alloc| - 1) == e
  {
    forall i | 0 <= i < |alloc|
      ensures PhaseEndDay(alloc, s, e, i) - PhaseStartDay(alloc, s, e, i) + 1 == alloc[i]
    {
      SumPrefixStep(alloc, i);
      SumPrefixAtMost(alloc, i + 1);
    }
    assert alloc[..|alloc|] == alloc;
  }

  // ---------------------------------------------------------------------
  // The operation on stages

  /** The two dates are present, parse, and are in order. */
  predicate ValidateDateRange(startDate: string, endDate: string) {
    startDate != "" && endDate != ""
    && ParseIso(startDate).Some? && ParseIso(endDate).Some?
    && ParseIso(startDate).value <= ParseIso(endDate).value
  }

  /** On the dates that parse, the check is the order of the days they denote. */
  lemma ValidateDateRangeIsOrder(a: string, b: string, c: string)
    ensures ValidateDateRange(a, a) <==> ParseIso(a).Some?
    ensures ValidateDateRange(a, b) && ValidateDateRange(b, c) ==> ValidateDateRange(a, c)
    ensures ValidateDateRange(a, b) && ValidateDateRange(b, a) ==> ParseIso(a) == ParseIso(b)
    ensures ParseIso(a).Some? && ParseIso(b).Some? ==> ValidateDateRange(a, b) || ValidateDateRange(b, a)
  {
  }

  /** The stages with each range of `alloc` written out as "yyyy-mm-dd", the last one ending on e. */
  function Layout(stages: seq<Stage>, alloc: seq<int>, s: int, e: int, formatDate: int -> string): (r: seq<Stage>)
    requires |alloc| == |stages|
    ensures |r| == |stages|
  {
    seq(|stages|, i requires 0 <= i < |stages| =>
      stages[i].(startDate := formatDate(PhaseStartDay(alloc, s, e, i)),
                 endDate := formatDate(if i == |stages| - 1 then e else PhaseEndDay(alloc, s, e, i))))
  }

  lemma LayoutAt(stages: seq<Stage>, alloc: seq<int>, s: int, e: int, formatDate: int -> string, q: nat)
    requires |alloc| == |stages| && q < |stages|
    ensures Layout(stages, alloc, s, e, formatDate)[q]
      == stages[q].(startDate := formatDate(PhaseStartDay(alloc, s, e, q)),
                    endDate := formatDate(if q == |stages| - 1 then e else PhaseEndDay(alloc, s, e, q)))
  {
  }

  /** The stages laid out over the allocation the weights give. */
  function Scheduled(stages: seq<Stage>, s: int, e: int, formatDate: int -> string): (r: seq<Stage>)
    requires TotalWeight(stages) > 0
  {
    Layout(stages, Allocation(Weights(stages), DayCount(s, e), TotalWeight(stages)), s, e, formatDate)
  }

  /** What `calculatePhaseDates` returns. */
  function PhaseDates(overallStart: string, overallEnd: string, stages: seq<Stage>, formatDate: int -> string): seq<Stage> {
    if overallStart == "" || overallEnd == "" || stages == [] then stages
    else
      var start, end := ParseIso(overallStart), ParseIso(overallEnd);
      if start.None? || end.None? || start.value > end.value then stages
      else if TotalWeight(stages) == 0 then stages
      else Scheduled(stages, start.value, end.value, formatDate)
  }

  method CalculatePhaseDates(overallStart: string, overallEnd: string, stages: seq<Stage>, formatDate: int -> string)
    returns (result: seq<Stage>)
    ensures result == PhaseDates(overallStart, overallEnd, stages, formatDate)
  {
    if overallStart == "" || overallEnd == "" || |stages| == 0 {
      return stages;
    }
    var start := ParseIso(overallStart);
    var end := ParseIso(overallEnd);
    if start.None? || end.None? || start.value > end.value {
      return stages;
    }
    var s, e := start.value, end.value;
    var totalDays := DayCount(s, e);
    var totalWeight := TotalWeight(stages);
    if totalWeight == 0 {
      return stages;
    }
    var ws := Weights(stages);
    var phaseDaysAllocation, allocatedDays := FirstPassDays(ws, totalDays, totalWeight);
    var remainingDays := totalDays - allocatedDays;
    if remainingDays > 0 {
      phaseDaysAllocation := DistributeRemainingDays(ws, totalDays, totalWeight, phaseDaysAllocation, remainingDays);
    } else {
      assert phaseDaysAllocation == Allocation(ws, totalDays, totalWeight);
    }
    AllocationPositive(ws, totalDays, totalWeight);
    result := LayOutStages(stages, phaseDaysAllocation, s, e, formatDate);
    forall q | 0 <= q < |stages|
      ensures result[q] == Layout(stages, phaseDaysAllocation, s, e, formatDate)[q]
    {
      LayoutAt(stages, phaseDaysAllocation, s, e, formatDate, q);
    }
  }

  /** The first-pass loop: floored shares, at least one day each, and their total. */
  method FirstPassDays(ws: seq<nat>, totalDays: int, totalWeight: nat)
    returns (allocation: seq<int>, allocatedDays: int)
    requires totalWeight > 0
    ensures allocation == FirstPass(ws, totalDays, totalWeight)
    ensures allocatedDays == Sum(allocation)
  {
    allocation := [];
    allocatedDays := 0;
    var i := 0;
    while i < |ws|
      invariant 0 <= i <= |ws|
      invariant allocation == FirstPass(ws, totalDays, totalWeight)[..i]
      invariant allocatedDays == Sum(allocation)
    {
      var daysForPhase := Max(1, ws[i] * totalDays / totalWeight);
      SumAppend(allocation, daysForPhase);
      allocation := allocation + [daysForPhase];
      allocatedDays := allocatedDays + daysForPhase;
      i := i + 1;
    }
  }

  /** The remainder loop: one more day for each of the first stages of the stable order. */
  method DistributeRemainingDays(ws: seq<nat>, totalDays: int, totalWeight: nat, first: seq<int>, remainingDays: int)
    returns (allocation: seq<int>)
    requires totalWeight > 0 && first == FirstPass(ws, totalDays, totalWeight)
    requires remainingDays == Remainder(ws, totalDays, totalWeight) && remainingDays > 0
    ensures allocation == Allocation(ws, totalDays, totalWeight)
  {
    var n := |ws|;
    var order := StableOrder(ws, n);
    StableOrderRanks(ws, n);
    allocation := first;
    var j := 0;
    while j < Min(remainingDays, n)
      invariant 0 <= j <= Min(remainingDays, n)
      invariant |allocation| == n
      invariant forall x :: 0 <= x < n ==> allocation[x] == first[x] + ExtraFlags(ws, j)[x]
    {
      ExtraFlagsStep(ws, j);
      allocation := allocation[order[j] := allocation[order[j]] + 1];
      j := j + 1;
    }
  }

  /** The layout loop: consecutive ranges from s, each end clamped to e, the last forced to e. */
  method LayOutStages(stages: seq<Stage>, allocation: seq<int>, s: int, e: int, formatDate: int -> string)
    returns (result: seq<Stage>)
    requires |allocation| == |stages| > 0 && s <= e
    requires forall i :: 0 <= i < |allocation| ==> allocation[i] >= 1
    ensures |result| == |stages|
    ensures forall q :: 0 <= q < |stages| ==> result[q] == stages[q].(
      startDate := formatDate(PhaseStartDay(allocation, s, e, q)),
      endDate := formatDate(if q == |stages| - 1 then e else PhaseEndDay(allocation, s, e, q)))
  {
    var n := |stages|;
    result := stages;
    var currentDate := s;
    var i := 0;
    assert allocation[..0] == [];
    while i < n
      invariant 0 <= i <= n && |result| == n
      invariant currentDate == PhaseStartDay(allocation, s, e, i)
      invariant forall q :: 0 <= q < i ==> result[q] == stages[q].(
        startDate := formatDate(PhaseStartDay(allocation, s, e, q)),
        endDate := formatDate(PhaseEndDay(allocation, s, e, q)))
      invariant forall q :: i <= q < n ==> result[q] == stages[q]
    {
      var phaseStartDate := currentDate;
      var phaseEndDate := phaseStartDate + allocation[i] - 1;
      if phaseEndDate > e {
        phaseEndDate := e;
      }
      LayoutStep(allocation, s, e, i);
      result := result[i := result[i].(startDate := formatDate(phaseStartDate), endDate := formatDate(phaseEndDate))];
      currentDate := phaseEndDate + 1;
      i := i + 1;
    }
    result := result[n - 1 := result[n - 1].(endDate := formatDate(e))];
  }

  // ---------------------------------------------------------------------
  // Properties of the result

  /** The stages come back unchanged unless the range is valid and there is weight to share. */
  lemma PhaseDatesUnchangedUnlessValid(overallStart: string, overallEnd: string, stages: seq<Stage>, formatDate: int -> string)
    requires !ValidateDateRange(overallStart, overallEnd) || stages == [] || TotalWeight(stages) == 0
    ensures PhaseDates(overallStart, overallEnd, stages, formatDate) == stages
  {
  }

  /**
   * Only the two planned dates change: same length, same order, every
   * other field of every stage kept.
   */
  lemma PhaseDatesKeepsOtherFields(overallStart: string, overallEnd: string, stages: seq<Stage>, formatDate: int -> string)
    ensures |PhaseDates(overallStart, overallEnd, stages, formatDate)| == |stages|
    ensures forall i :: 0 <= i < |stages| ==>
      PhaseDates(overallStart, overallEnd, stages, formatDate)[i].(startDate := stages[i].startDate, endDate := stages[i].endDate)
      == stages[i]
  {
  }

  /** On a valid range with some weight, the stages are laid out over the range's days. */
  lemma PhaseDatesOnValidRange(overallStart: string, overallEnd: string, stages: seq<Stage>, formatDate: int -> string, s: int, e: int)
    requires ParseIso(overallStart) == Some(s) && ParseIso(overallEnd) == Some(e) && s <= e
    requires stages != [] && TotalWeight(stages) > 0
    ensures ValidateDateRange(overallStart, overallEnd)
    ensures PhaseDates(overallStart, overallEnd, stages, formatDate) == Scheduled(stages, s, e, formatDate)
  {
  }

  /**
   * The first stage starts on the overall start, each later stage starts
   * the day after the previous stage's computed end, and the last stage
   * ends on the overall end.
   */
  lemma LayoutDates(stages: seq<Stage>, alloc: seq<int>, s: int, e: int, formatDate: int -> string)
    requires s <= e && |alloc| == |stages| > 0
    ensures var r := Layout(stages, alloc, s, e, formatDate);
      && r[0].startDate == formatDate(s)
      && r[|r| - 1].endDate == formatDate(e)
      && (forall i :: 0 <= i < |r| - 1 ==> r[i].endDate == formatDate(PhaseEndDay(alloc, s, e, i)))
      && (forall i :: 0 < i < |r| ==> r[i].startDate == formatDate(PhaseEndDay(alloc, s, e, i - 1) + 1))
      && (forall i :: 0 <= i < |r| ==> PhaseEndDay(alloc, s, e, i) <= e)
  {
    var r := Layout(stages, alloc, s, e, formatDate);
    LayoutChained(alloc, s, e);
    LayoutAt(stages, alloc, s, e, formatDate, 0);
    LayoutAt(stages, alloc, s, e, formatDate, |stages| - 1);
    forall i | 0 <= i < |r| - 1
      ensures r[i].endDate == formatDate(PhaseEndDay(alloc, s, e, i))
    {
      LayoutAt(stages, alloc, s, e, formatDate, i);
    }
    forall i | 0 < i < |r|
      ensures r[i].startDate == formatDate(PhaseEndDay(alloc, s, e, i - 1) + 1)
    {
      LayoutAt(stages, alloc, s, e, formatDate, i);
    }
  }

  /**
   * When every stage's floored share is at least one day, the stage ranges
   * partition the overall range exactly: each holds its allocated days.
   */
  lemma PhaseDatesPartition(stages: seq<Stage>, s: int, e: int)
    requires s <= e && stages != [] && TotalWeight(stages) > 0
    requires forall i :: 0 <= i < |stages| ==> stages[i].weight * DayCount(s, e) >= TotalWeight(stages)
    ensures var alloc := Allocation(Weights(stages), DayCount(s, e), TotalWeight(stages));
      Sum(alloc) == DayCount(s, e)
      && (forall i :: 0 <= i < |stages| ==>
            PhaseEndDay(alloc, s, e, i) - PhaseStartDay(alloc, s, e, i) + 1 == alloc[i])
      && PhaseEndDay(alloc, s, e, |stages| - 1) == e
  {
    var ws, t, w := Weights(stages), DayCount(s, e), TotalWeight(stages);
    TotalWeightIsSum(stages);
    FirstPassFits(ws, t, w);
    AllocationUsesAllDays(ws, t, w);
    AllocationPositive(ws, t, w);
    LayoutPartitions(Allocation(ws, t, w), s, e);
  }

  // ---------------------------------------------------------------------
  // Worked examples

  /** Ten days with weights 50, 30, 20: shares 5, 3 and 2 with nothing left over. */
  lemma ExampleExactShares()
    ensures Allocation([50, 30, 20], 10, 100) == [5, 3, 2]
  {
    var ws: seq<nat> := [50, 30, 20];
    assert FirstPass(ws, 10, 100) == [5, 3, 2];
    SumOfShort(5, 3, 2, 0);
    assert ExtraCount(ws, 10, 100) == 0;
    assert ExtraFlags(ws, 0) == [0, 0, 0];
  }

  /** Ten days with weights 34, 33, 33: shares 3, 3, 3 and the spare day to the heaviest. */
  lemma ExampleSpareDayToHeaviest()
    ensures Allocation([34, 33, 33], 10, 100) == [4, 3, 3]
  {
    var ws: seq<nat> := [34, 33, 33];
    assert FirstPass(ws, 10, 100) == [3, 3, 3];
    SumOfShort(3, 3, 3, 0);
    assert ExtraCount(ws, 10, 100) == 1;
    assert Rank(ws, 0) == 0;
    assert Rank(ws, 1) == 1;
    assert Rank(ws, 2) == 2;
    assert ExtraFlags(ws, 1) == [1, 0, 0];
  }

  /** Six days over four equal weights: the two spare days go to the first two stages. */
  lemma ExampleTiesKeepOrder()
    ensures Allocation([25, 25, 25, 25], 6, 100) == [2, 2, 1, 1]
  {
    var ws: seq<nat> := [25, 25, 25, 25];
    assert FirstPass(ws, 6, 100) == [1, 1, 1, 1];
    SumOfShort(1, 1, 1, 1);
    assert ExtraCount(ws, 6, 100) == 2;
    assert RankBelow(ws, 0, 2) == 0 && RankBelow(ws, 1, 2) == 1;
    assert RankBelow(ws, 0, 3) == 0 && RankBelow(ws, 1, 3) == 1;
    assert Rank(ws, 0) == 0;
    assert Rank(ws, 1) == 1;
    assert RankBelow(ws, 2, 4) == 2;
    assert RankBelow(ws, 3, 4) == 3;
    assert ExtraFlags(ws, 2) == [1, 1, 0, 0];
  }

  /**
   * A one-day range with two equal stages: the one-day minimum gives two
   * days, so the second stage starts after the overall end while its end
   * is clamped to it.
   */
  lemma ExampleOverAllocation(s: int)
    ensures Allocation([50, 50], 1, 100) == [1, 1]
    ensures PhaseStartDay([1, 1], s, s, 1) == s + 1
    ensures PhaseEndDay([1, 1], s, s, 1) == s
  {
    var ws: seq<nat> := [50, 50];
    assert FirstPass(ws, 1, 100) == [1, 1];
    SumOfShort(1, 1, 0, 0);
    assert ExtraFlags(ws, 0) == [0, 0];
    assert [1, 1][..1] == [1];
    assert [1, 1][..2] == [1, 1];
  }
}

/**
 * The stored project document (backend/models/Project.js): its stage and
 * project records, the enumerated fields with their defaults, and the two
 * computed read-only properties `progress` and `statusSummary`.
 */
module ProjectModel {
  import opened Base
  import opened Text

  /** The four values the stage schema admits for `status`. */
  datatype StageStatus = YetToStart | InProgress | Completed | Delayed {
    function Label(): string {
      match this
      case YetToStart => "Yet to Start"
      case InProgress => "In Progress"
      case Completed => "Completed"
      case Delayed => "Delayed"
    }
  }

  function StageStatusFromLabel(s: string): Option<StageStatus> {
    if s == "Yet to Start" then Some(YetToStart)
    else if s == "In Progress" then Some(InProgress)
    else if s == "Completed" then Some(Completed)
    else if s == "Delayed" then Some(Delayed)
    else None
  }

  /** The three values the project schema admits for `priority`. */
  datatype Priority = P1 | P2 | P3 {
    function Label(): string {
      match this
      case P1 => "P1"
      case P2 => "P2"
      case P3 => "P3"
    }
  }

  function PriorityFromLabel(s: string): Option<Priority> {
    if s == "P1" then Some(P1) else if s == "P2" then Some(P2) else if s == "P3" then Some(P3) else None
  }

  /** Why the schema refuses a document. */
  datatype SchemaError = NotInEnum(field: string, value: string)

  /**
   * Casting a stage's `status` on save: an absent value takes the default
   * "Yet to Start"; a present value must be one of the four labels.
   */
  function CastStageStatus(v: Option<string>): (r: Result<StageStatus, SchemaError>)
    ensures v.None? ==> r == Ok(YetToStart)
    ensures v.Some? ==> (r.Ok? <==> v.value in ["Yet to Start", "In Progress", "Completed", "Delayed"])
    ensures v.Some? && r.Ok? ==> r.value.Label() == v.value
    ensures r.Err? ==> r.error == NotInEnum("status", v.value)
  {
    match v
    case None => Ok(YetToStart)
    case Some(s) =>
      match StageStatusFromLabel(s)
      case Some(x) => Ok(x)
      case None => Err(NotInEnum("status", s))
  }

  /** Casting a project's `priority` on save: absent means "P3"; otherwise P1, P2 or P3. */
  function CastPriority(v: Option<string>): (r: Result<Priority, SchemaError>)
    ensures v.None? ==> r == Ok(P3)
    ensures v.Some? ==> (r.Ok? <==> v.value in ["P1", "P2", "P3"])
    ensures v.Some? && r.Ok? ==> r.value.Label() == v.value
    ensures r.Err? ==> r.error == NotInEnum("priority", v.value)
  {
    match v
    case None => Ok(P3)
    case Some(s) =>
      match PriorityFromLabel(s)
      case Some(x) => Ok(x)
      case None => Err(NotInEnum("priority", s))
  }

  /** A stage `save()` accepts: a non-empty name (`required`) and one of the four status labels. */
  predicate StagePassesSchema(s: Stage) {
    s.name != "" && CastStageStatus(Some(s.status)).Ok?
  }

  /**
   * A stored project `save()` accepts: its required texts are not empty,
   * its priority is one of the three labels and every stage passes.
   */
  predicate PassesSchema(p: Project) {
    p.projectId != "" && p.projectName != "" && p.department != "" && p.projectOwner != ""
    && CastPriority(Some(p.priority)).Ok?
    && forall i :: 0 <= i < |p.stages| ==> StagePassesSchema(p.stages[i])
  }

  lemma {:induction false} StageStatusLabelsRoundTrip(x: StageStatus, s: string)
    ensures StageStatusFromLabel(x.Label()) == Some(x)
    ensures StageStatusFromLabel(s) == Some(x) ==> x.Label() == s
  {
    match x
    case YetToStart =>
    case InProgress =>
    case Completed =>
    case Delayed =>
  }

  /**
   * One stage of a project. Date fields are "yyyy-mm-dd" text or "" when
   * unset; `status` is the label text as it travels between the tiers.
   */
  datatype Stage = Stage(
    name: string,
    stageOwner: string,
    weight: nat,
    startDate: string,
    endDate: string,
    actualStartDate: string,
    actualEndDate: string,
    remarks: string,
    status: string)

  /** The project fields the core reads. */
  datatype Project = Project(
    projectId: string,
    projectName: string,
    department: string,
    projectOwner: string,
    startDate: string,
    endDate: string,
    priority: string,
    overallProjectSummary: string,
    stages: seq<Stage>)

  predicate IsCompleted(s: Stage) { s.status == "Completed" }

  function TotalWeight(stages: seq<Stage>): nat
    decreases |stages|
  {
    if stages == [] then 0 else stages[0].weight + TotalWeight(stages[1..])
  }

  function CompletedWeight(stages: seq<Stage>): nat
    decreases |stages|
  {
    if stages == [] then 0
    else (if IsCompleted(stages[0]) then stages[0].weight else 0) + CompletedWeight(stages[1..])
  }

  function CompletedCount(stages: seq<Stage>): nat
    decreases |stages|
  {
    if stages == [] then 0
    else (if IsCompleted(stages[0]) then 1 else 0) + CompletedCount(stages[1..])
  }

  /**
   * The `progress` property: the share of the total weight held by completed
   * stages, as a whole percentage rounded half up (`Math.round`).
   */
  function Progress(stages: seq<Stage>): (p: nat)
    ensures (stages == [] || TotalWeight(stages) == 0) ==> p == 0
  {
    if stages == [] then 0
    else
      var total := TotalWeight(stages);
      if total > 0 then (200 * CompletedWeight(stages) + total) / (2 * total) else 0
  }

  /**
   * Progress is the completed share of the weight as a percentage rounded
   * half up: p is the integer with p - 1/2 <= 100 * c / t < p + 1/2.
   */
  lemma ProgressIsRoundedShare(stages: seq<Stage>)
    requires TotalWeight(stages) > 0
    ensures var t, c, p := TotalWeight(stages), CompletedWeight(stages), Progress(stages);
      2 * t * p <= 200 * c + t < 2 * t * (p + 1)
  {
    var t, c, p := TotalWeight(stages), CompletedWeight(stages), Progress(stages);
    assert stages != [];
    var x := 200 * c + t;
    assert p == x / (2 * t);
    assert x == (2 * t) * p + x % (2 * t);
    assert 2 * t * (p + 1) == 2 * t * p + 2 * t;
  }

  /** The `statusSummary` property: "k/n Completed". */
  function StatusSummary(stages: seq<Stage>): string {
    if stages == [] then "0/0 Completed"
    else NatToString(CompletedCount(stages)) + "/" + NatToString(|stages|) + " Completed"
  }

  lemma {:induction false} CompletedWeightAtMostTotal(stages: seq<Stage>)
    ensures CompletedWeight(stages) <= TotalWeight(stages)
    decreases |stages|
  {
    if stages != [] {
      CompletedWeightAtMostTotal(stages[1..]);
    }
  }

  lemma {:induction false} CompletedWeightAllCompleted(stages: seq<Stage>)
    requires forall i :: 0 <= i < |stages| ==> IsCompleted(stages[i])
    ensures CompletedWeight(stages) == TotalWeight(stages)
    decreases |stages|
  {
    if stages != [] {
      CompletedWeightAllCompleted(stages[1..]);
    }
  }

  lemma {:induction false} CompletedWeightNoneCompleted(stages: seq<Stage>)
    requires forall i :: 0 <= i < |stages| ==> !IsCompleted(stages[i])
    ensures CompletedWeight(stages) == 0
    decreases |stages|
  {
    if stages != [] {
      CompletedWeightNoneCompleted(stages[1..]);
    }
  }

  /** Progress is a percentage: it never leaves 0..100. */
  lemma ProgressBounds(stages: seq<Stage>)
    ensures 0 <= Progress(stages) <= 100
  {
    CompletedWeightAtMostTotal(stages);
    var t, c := TotalWeight(stages), CompletedWeight(stages);
    if stages != [] && t > 0 {
      assert 200 * c + t < (2 * t) * 101;
      DivBelow(200 * c + t, 2 * t, 101);
    }
  }

  /** Every stage completed (and some weight) gives exactly 100. */
  lemma ProgressAllCompleted(stages: seq<Stage>)
    requires forall i :: 0 <= i < |stages| ==> IsCompleted(stages[i])
    requires TotalWeight(stages) > 0
    ensures Progress(stages) == 100
  {
    CompletedWeightAllCompleted(stages);
    FullShareIsHundred(stages);
  }

  lemma FullShareIsHundred(stages: seq<Stage>)
    requires TotalWeight(stages) > 0 && CompletedWeight(stages) == TotalWeight(stages)
    ensures Progress(stages) == 100
  {
    var t := TotalWeight(stages);
    assert stages != [];
    assert 200 * t + t == (2 * t) * 100 + t;
    DivExact(100, 2 * t, t);
  }

  /** No stage completed gives 0. */
  lemma ProgressNoneCompleted(stages: seq<Stage>)
    requires forall i :: 0 <= i < |stages| ==> !IsCompleted(stages[i])
    ensures Progress(stages) == 0
  {
    CompletedWeightNoneCompleted(stages);
  }

  /** Marking one more stage "Completed" never lowers the progress. */
  lemma ProgressMonotone(stages: seq<Stage>, k: nat)
    requires k < |stages|
    ensures Progress(stages[k := stages[k].(status := "Completed")]) >= Progress(stages)
  {
    var after := stages[k := stages[k].(status := "Completed")];
    UpdateKeepsTotal(stages, k, "Completed");
    CompletedWeightGrows(stages, k);
    var t, c, c' := TotalWeight(stages), CompletedWeight(stages), CompletedWeight(after);
    if t > 0 {
      assert 200 * c + t <= 200 * c' + t;
      DivMonotone(200 * c + t, 200 * c' + t, 2 * t);
    }
  }

  lemma {:induction false} UpdateKeepsTotal(stages: seq<Stage>, k: nat, status: string)
    requires k < |stages|
    ensures TotalWeight(stages[k := stages[k].(status := status)]) == TotalWeight(stages)
    decreases |stages|
  {
    if k > 0 {
      UpdateKeepsTotal(stages[1..], k - 1, status);
      assert stages[k := stages[k].(status := status)][1..] == stages[1..][k - 1 := stages[k].(status := status)];
    } else {
      assert stages[k := stages[k].(status := status)][1..] == stages[1..];
    }
  }

  lemma {:induction false} CompletedWeightGrows(stages: seq<Stage>, k: nat)
    requires k < |stages|
    ensures CompletedWeight(stages[k := stages[k].(status := "Completed")]) >= CompletedWeight(stages)
    decreases |stages|
  {
    var after := stages[k := stages[k].(status := "Completed")];
    if k > 0 {
      CompletedWeightGrows(stages[1..], k - 1);
      assert after[1..] == stages[1..][k - 1 := stages[k].(status := "Completed")];
    } else {
      assert after[1..] == stages[1..];
    }
  }

  lemma {:induction false} CompletedCountAtMostLength(stages: seq<Stage>)
    ensures CompletedCount(stages) <= |stages|
    ensures CompletedCount(stages) == |stages| <==> forall i :: 0 <= i < |stages| ==> IsCompleted(stages[i])
    decreases |stages|
  {
    if stages != [] {
      CompletedCountAtMostLength(stages[1..]);
      if forall i :: 0 <= i < |stages[1..]| ==> IsCompleted(stages[1..][i]) {
        if IsCompleted(stages[0]) {
          forall i | 0 <= i < |stages| ensures IsCompleted(stages[i]) {
            if i > 0 { assert stages[i] == stages[1..][i - 1]; }
          }
        }
      } else {
        var j :| 0 <= j < |stages[1..]| && !IsCompleted(stages[1..][j]);
        assert !IsCompleted(stages[j + 1]);
      }
    }
  }

  /**
   * The summary always reads "k/n Completed" with k the number of completed
   * stages and n the number of stages, the empty case included, and k <= n.
   */
  lemma StatusSummaryShape(stages: seq<Stage>)
    ensures StatusSummary(stages)
      == NatToString(CompletedCount(stages)) + "/" + NatToString(|stages|) + " Completed"
    ensures CompletedCount(stages) <= |stages|
  {
    CompletedCountAtMostLength(stages);
    if stages == [] {
      EmptySummaryText();
    }
  }

  /** "0/0 Completed" is the general shape with both counts zero. */
  lemma EmptySummaryText()
    ensures "0/0 Completed" == NatToString(0) + "/" + NatToString(0) + " Completed"
  {
    var zero := NatToString(0);
    assert zero == "0";
    assert zero + "/" == "0/";
    assert zero + "/" + zero == "0/0";
  }

  /** The summary text determines both counts: two summaries agree only when k and n do. */
  lemma StatusSummaryDeterminesCounts(a: seq<Stage>, b: seq<Stage>)
    requires StatusSummary(a) == StatusSummary(b)
    ensures CompletedCount(a) == CompletedCount(b) && |a| == |b|
  {
    StatusSummaryShape(a);
    StatusSummaryShape(b);
    var ka, na := NatToString(CompletedCount(a)), NatToString(|a|);
    var kb, nb := NatToString(CompletedCount(b)), NatToString(|b|);
    SuffixCancel(ka + "/" + na, kb + "/" + nb, " Completed");
    SplitAtSlash(ka, na, kb, nb);
    NatToStringInjective(CompletedCount(a), CompletedCount(b));
    NatToStringInjective(|a|, |b|);
  }

  lemma NatToStringInjective(m: nat, n: nat)
    requires NatToString(m) == NatToString(n)
    ensures m == n
  {
    NatToStringValue(m);
    NatToStringValue(n);
  }

  lemma SuffixCancel(a: string, b: string, c: string)
    requires a + c == b + c
    ensures a == b
  {
    assert |a| == |b|;
    assert a == (a + c)[..|a|];
    assert b == (b + c)[..|b|];
  }

  /** Splitting "x/y" where x has no '/' is unique. */
  lemma SplitAtSlash(x1: string, y1: string, x2: string, y2: string)
    requires AllDigits(x1) && AllDigits(x2)
    requires x1 + "/" + y1 == x2 + "/" + y2
    ensures x1 == x2 && y1 == y2
  {
    var s := x1 + "/" + y1;
    assert x1 + "/" + y1 == x1 + ("/" + y1);
    assert x2 + "/" + y2 == x2 + ("/" + y2);
    LeadingDigitsStop(x1, "/" + y1);
    LeadingDigitsStop(x2, "/" + y2);
    assert x1 == s[..|x1|];
    assert x2 == s[..|x2|];
    assert y1 == s[|x1| + 1..];
  }
}

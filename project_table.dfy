/**
 * The dashboard table (frontend/src/components/ProjectTable.jsx): the
 * search filter and the overall status shown for each project. The
 * progress column and the "k/n Completed" summary are `Progress` and
 * `StatusSummary` of ProjectModel, which this table computes the same way.
 */
module ProjectTable {
  import opened Base
  import opened Text
  import opened ProjectModel

  /** The project's id or name contains the search term, ignoring ASCII case. */
  predicate MatchesSearch(p: Project, term: string) {
    Includes(ToLower(p.projectId), ToLower(term)) || Includes(ToLower(p.projectName), ToLower(term))
  }

  function SearchPredicate(term: string): Project -> bool {
    p => MatchesSearch(p, term)
  }

  /** The rows the table shows: the projects matching the term, in their order. */
  function SearchFiltered(projects: seq<Project>, term: string): (r: seq<Project>)
    ensures IsSubsequence(r, projects)
    ensures forall p :: p in r <==> p in projects && MatchesSearch(p, term)
  {
    FilterIsSubsequence(projects, SearchPredicate(term));
    Filter(projects, SearchPredicate(term))
  }

  /** An empty search term matches every project. */
  lemma EmptySearchKeepsAll(projects: seq<Project>)
    ensures SearchFiltered(projects, "") == projects
  {
    forall p | p in projects ensures MatchesSearch(p, "") {
      IncludesEmpty(ToLower(p.projectId));
    }
    FilterAll(projects, SearchPredicate(""));
  }

  /** Filtering an already filtered list again changes nothing. */
  lemma SearchFilteredIdempotent(projects: seq<Project>, term: string)
    ensures SearchFiltered(SearchFiltered(projects, term), term) == SearchFiltered(projects, term)
  {
    FilterAll(SearchFiltered(projects, term), SearchPredicate(term));
  }

  lemma ToLowerIdempotent(s: string)
    ensures ToLower(ToLower(s)) == ToLower(s)
  {
  }

  /** The case of the search term does not matter. */
  lemma SearchIgnoresCase(projects: seq<Project>, term: string)
    ensures SearchFiltered(projects, ToLower(term)) == SearchFiltered(projects, term)
  {
    ToLowerIdempotent(term);
    FilterCongruent(projects, SearchPredicate(ToLower(term)), SearchPredicate(term));
  }

  // Overall status

  function Statuses(stages: seq<Stage>): (r: seq<string>)
    ensures |r| == |stages| && forall i :: 0 <= i < |stages| ==> r[i] == stages[i].status
  {
    seq(|stages|, i requires 0 <= i < |stages| => stages[i].status)
  }

  /** `getOverallStatus`: Delayed, then In Progress, then all Completed, else Yet to Start. */
  function OverallStatus(stages: seq<Stage>): string {
    var statuses := Statuses(stages);
    if "Delayed" in statuses then "Delayed"
    else if "In Progress" in statuses then "In Progress"
    else if forall s <- statuses :: s == "Completed" then "Completed"
    else "Yet to Start"
  }

  /** How far behind a stage status is: Completed 0, Yet to Start (and anything else) 1, In Progress 2, Delayed 3. */
  function Severity(status: string): nat {
    if status == "Delayed" then 3
    else if status == "In Progress" then 2
    else if status == "Completed" then 0
    else 1
  }

  function SeverityLabel(n: nat): string {
    if n >= 3 then "Delayed"
    else if n == 2 then "In Progress"
    else if n == 1 then "Yet to Start"
    else "Completed"
  }

  /** The most severe stage status; 0 for no stages. */
  function WorstSeverity(stages: seq<Stage>): nat
    decreases |stages|
  {
    if stages == [] then 0 else Max(Severity(stages[0].status), WorstSeverity(stages[1..]))
  }

  lemma {:induction false} WorstSeverityIsMaximum(stages: seq<Stage>)
    ensures WorstSeverity(stages) <= 3
    ensures forall i :: 0 <= i < |stages| ==> Severity(stages[i].status) <= WorstSeverity(stages)
    ensures stages != [] ==> exists i :: 0 <= i < |stages| && Severity(stages[i].status) == WorstSeverity(stages)
    ensures stages == [] ==> WorstSeverity(stages) == 0
    decreases |stages|
  {
    if stages != [] {
      var rest := stages[1..];
      WorstSeverityIsMaximum(rest);
      forall i | 0 <= i < |stages| ensures Severity(stages[i].status) <= WorstSeverity(stages) {
        if i > 0 {
          assert stages[i] == rest[i - 1];
        }
      }
      if WorstSeverity(stages) != Severity(stages[0].status) {
        var j :| 0 <= j < |rest| && Severity(rest[j].status) == WorstSeverity(rest);
        assert stages[j + 1] == rest[j];
      }
    }
  }

  /**
   * The overall status is the status of the most severe stage, with a
   * project without stages counting as Completed.
   */
  lemma OverallStatusIsWorstStage(stages: seq<Stage>)
    ensures OverallStatus(stages) == SeverityLabel(WorstSeverity(stages))
    ensures stages == [] ==> OverallStatus(stages) == "Completed"
  {
    WorstSeverityIsMaximum(stages);
    var statuses := Statuses(stages);
    var w := WorstSeverity(stages);
    if "Delayed" in statuses {
      var i :| 0 <= i < |statuses| && statuses[i] == "Delayed";
      assert Severity(stages[i].status) == 3;
    } else if "In Progress" in statuses {
      var i :| 0 <= i < |statuses| && statuses[i] == "In Progress";
      assert Severity(stages[i].status) == 2;
      forall j | 0 <= j < |stages| ensures Severity(stages[j].status) <= 2 {
        assert statuses[j] != "Delayed";
      }
    } else if forall s <- statuses :: s == "Completed" {
      forall j | 0 <= j < |stages| ensures Severity(stages[j].status) == 0 {
        assert statuses[j] in statuses;
      }
      if stages != [] {
        var i :| 0 <= i < |stages| && Severity(stages[i].status) == w;
      }
    } else {
      var s :| s in statuses && s != "Completed";
      var i :| 0 <= i < |statuses| && statuses[i] == s;
      assert Severity(stages[i].status) == 1;
      forall j | 0 <= j < |stages| ensures Severity(stages[j].status) <= 1 {
        assert statuses[j] != "Delayed" && statuses[j] != "In Progress";
      }
    }
  }

  /** Each of the four answers, stated as a condition on the stages. */
  lemma OverallStatusCases(stages: seq<Stage>)
    ensures OverallStatus(stages) == "Delayed" <==> exists i :: 0 <= i < |stages| && stages[i].status == "Delayed"
    ensures OverallStatus(stages) == "In Progress" <==>
      (forall i :: 0 <= i < |stages| ==> stages[i].status != "Delayed")
      && exists i :: 0 <= i < |stages| && stages[i].status == "In Progress"
    ensures OverallStatus(stages) == "Completed" <==> forall i :: 0 <= i < |stages| ==> IsCompleted(stages[i])
    ensures OverallStatus(stages) == "Yet to Start" <==>
      (forall i :: 0 <= i < |stages| ==> stages[i].status != "Delayed" && stages[i].status != "In Progress")
      && exists i :: 0 <= i < |stages| && !IsCompleted(stages[i])
  {
    OverallStatusIsWorstStage(stages);
    WorstSeverityIsMaximum(stages);
    SeverityLabelOf(WorstSeverity(stages));
    WorstSeverityCases(stages);
  }

  /** The four labels name the four severities. */
  lemma SeverityLabelOf(w: nat)
    requires w <= 3
    ensures (SeverityLabel(w) == "Delayed") == (w == 3)
    ensures (SeverityLabel(w) == "In Progress") == (w == 2)
    ensures (SeverityLabel(w) == "Yet to Start") == (w == 1)
    ensures (SeverityLabel(w) == "Completed") == (w == 0)
  {
  }

  /** Each severity level, stated as a condition on the stages. */
  lemma WorstSeverityCases(stages: seq<Stage>)
    ensures WorstSeverity(stages) == 3 <==> exists i :: 0 <= i < |stages| && stages[i].status == "Delayed"
    ensures WorstSeverity(stages) == 2 <==>
      (forall i :: 0 <= i < |stages| ==> stages[i].status != "Delayed")
      && exists i :: 0 <= i < |stages| && stages[i].status == "In Progress"
    ensures WorstSeverity(stages) == 0 <==> forall i :: 0 <= i < |stages| ==> IsCompleted(stages[i])
    ensures WorstSeverity(stages) == 1 <==>
      (forall i :: 0 <= i < |stages| ==> stages[i].status != "Delayed" && stages[i].status != "In Progress")
      && exists i :: 0 <= i < |stages| && !IsCompleted(stages[i])
  {
    WorstSeverityIsMaximum(stages);
    SeverityLevels(stages);
  }

  /** Each stage's severity, stated as a condition on its status. */
  lemma SeverityLevels(stages: seq<Stage>)
    ensures forall i :: 0 <= i < |stages| ==>
      (Severity(stages[i].status) == 3 <==> stages[i].status == "Delayed")
      && (Severity(stages[i].status) == 2 <==> stages[i].status == "In Progress")
      && (Severity(stages[i].status) == 0 <==> IsCompleted(stages[i]))
      && Severity(stages[i].status) <= 3
  {
  }

  /** A Completed project with some weight shows 100% progress. */
  lemma CompletedProjectShowsFullProgress(stages: seq<Stage>)
    requires OverallStatus(stages) == "Completed" && TotalWeight(stages) > 0
    ensures Progress(stages) == 100 && StatusSummary(stages) == NatToString(|stages|) + "/" + NatToString(|stages|) + " Completed"
  {
    OverallStatusCases(stages);
    ProgressAllCompleted(stages);
    AllCompletedCount(stages);
    StatusSummaryShape(stages);
  }

  lemma {:induction false} AllCompletedCount(stages: seq<Stage>)
    requires forall i :: 0 <= i < |stages| ==> IsCompleted(stages[i])
    ensures CompletedCount(stages) == |stages|
    decreases |stages|
  {
    if stages != [] {
      AllCompletedCount(stages[1..]);
    }
  }
}

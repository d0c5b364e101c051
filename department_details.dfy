/**
 * The department page: projects counted per trimmed (department, owner)
 * pair in a nested dictionary, then emitted as table rows, departments in
 * code-unit order and owners in the page's comparison order, with the
 * department name shown only on the first row of each department.
 *
 * The dictionary is modelled by a `map` for the counts plus the order in
 * which `Object.keys` lists its keys (insertion order).
 */
module DepartmentDetails {
  import opened Base
  import opened Text
  import opened ProjectModel
  import opened Sorting

  /** One row of the table. */
  datatype Row = Row(department: string, owner: string, count: nat, isFirstInDepartment: bool)

  /** The page skips a project whose department or owner is missing or empty (checked before trimming). */
  predicate Counted(p: Project) {
    p.department != "" && p.projectOwner != ""
  }

  /** Whether `p` is grouped under (`department`, `owner`). */
  predicate GroupedUnder(p: Project, department: string, owner: string) {
    Counted(p) && Trim(p.department) == department && Trim(p.projectOwner) == owner
  }

  /** Number of projects grouped under (`department`, `owner`). */
  function PairCount(projects: seq<Project>, department: string, owner: string): nat {
    if projects == [] then 0
    else
      PairCount(projects[..|projects| - 1], department, owner)
      + (if GroupedUnder(projects[|projects| - 1], department, owner) then 1 else 0)
  }

  /** Number of projects that pass the emptiness check. */
  function CountedCount(projects: seq<Project>): nat {
    if projects == [] then 0
    else CountedCount(projects[..|projects| - 1]) + (if Counted(projects[|projects| - 1]) then 1 else 0)
  }

  /**
   * The nested dictionary `departmentMap`: `counts[d][o]` is the count for
   * department `d` and owner `o`; `departments` and `owners[d]` list the keys
   * of the outer and inner dictionaries in insertion order.
   */
  datatype Grouping = Grouping(
    departments: seq<string>,
    owners: map<string, seq<string>>,
    counts: map<string, map<string, nat>>)

  /** The key lists list exactly the keys, once each. */
  ghost predicate WellFormed(g: Grouping) {
    Distinct(g.departments)
    && (forall d :: d in g.departments <==> d in g.counts)
    && g.owners.Keys == g.counts.Keys
    && (forall d :: d in g.counts ==>
          Distinct(g.owners[d]) && (forall o :: o in g.owners[d] <==> o in g.counts[d]))
  }

  function EmptyGrouping(): Grouping {
    Grouping([], map[], map[])
  }

  /** Create the missing entries for (`department`, `owner`), then add one to its count. */
  function Bump(g: Grouping, department: string, owner: string): Grouping {
    var inner := if department in g.counts then g.counts[department] else map[];
    var order := if department in g.owners then g.owners[department] else [];
    Grouping(
      if department in g.counts then g.departments else g.departments + [department],
      g.owners[department := if owner in inner then order else order + [owner]],
      g.counts[department := inner[owner := (if owner in inner then inner[owner] else 0) + 1]])
  }

  /** One iteration of the `forEach`. */
  function GroupStep(g: Grouping, p: Project): Grouping {
    if Counted(p) then Bump(g, Trim(p.department), Trim(p.projectOwner)) else g
  }

  /** The dictionary after the `forEach` over `projects`. */
  function Grouped(projects: seq<Project>): Grouping {
    if projects == [] then EmptyGrouping()
    else GroupStep(Grouped(projects[..|projects| - 1]), projects[|projects| - 1])
  }

  function OwnersOf(g: Grouping, department: string): seq<string> {
    if department in g.owners then g.owners[department] else []
  }

  function CountOf(g: Grouping, department: string, owner: string): nat {
    if department in g.counts && owner in g.counts[department] then g.counts[department][owner] else 0
  }

  /** The rows pushed for one department, owners in the order given. */
  function GroupRows(department: string, owners: seq<string>, g: Grouping): (r: seq<Row>)
    ensures |r| == |owners|
  {
    seq(|owners|, k requires 0 <= k < |owners| =>
      Row(if k == 0 then department else "", owners[k], CountOf(g, department, owners[k]), k == 0))
  }

  /** The rows pushed for `departments` in order, each department's owners sorted. */
  function TableRows(departments: seq<string>, g: Grouping, ownerBefore: (string, string) -> bool): seq<Row> {
    if departments == [] then []
    else
      var department := departments[|departments| - 1];
      TableRows(departments[..|departments| - 1], g, ownerBefore)
      + GroupRows(department, Sort(OwnersOf(g, department), ownerBefore), g)
  }

  /** The table the page shows; `ownerBefore` is the owner comparison (`localeCompare(...) < 0`). */
  function DetailRows(projects: seq<Project>, ownerBefore: (string, string) -> bool): seq<Row> {
    var g := Grouped(projects);
    TableRows(Sort(g.departments, LexLess), g, ownerBefore)
  }

  /** The (department, owner) pair behind each row of `TableRows`. */
  function TablePairs(departments: seq<string>, g: Grouping, ownerBefore: (string, string) -> bool): seq<(string, string)> {
    if departments == [] then []
    else
      var department := departments[|departments| - 1];
      var owners := Sort(OwnersOf(g, department), ownerBefore);
      TablePairs(departments[..|departments| - 1], g, ownerBefore)
      + seq(|owners|, k requires 0 <= k < |owners| => (department, owners[k]))
  }

  /** The (department, owner) pair behind each row of `DetailRows`. */
  function DetailPairs(projects: seq<Project>, ownerBefore: (string, string) -> bool): seq<(string, string)> {
    var g := Grouped(projects);
    TablePairs(Sort(g.departments, LexLess), g, ownerBefore)
  }

  /** Department first, then owner. */
  predicate PairBefore(a: (string, string), b: (string, string), ownerBefore: (string, string) -> bool) {
    LexLess(a.0, b.0) || (a.0 == b.0 && ownerBefore(a.1, b.1))
  }

  function RowCount(r: Row): nat { r.count }

  /**
   * The page's `departmentDetails` computation: fill the dictionary in one
   * pass, then push the rows department by department.
   */
  method DepartmentDetails(projects: seq<Project>, ownerBefore: (string, string) -> bool) returns (result: seq<Row>)
    ensures result == DetailRows(projects, ownerBefore)
  {
    var departmentKeys, ownerKeys, departmentMap := GroupProjects(projects);
    GroupedWellFormed(projects);
    result := PushDepartments(departmentKeys, ownerKeys, departmentMap, ownerBefore);
  }

  /** The outer `forEach`: the dictionary filled from every project. */
  method GroupProjects(projects: seq<Project>)
    returns (departmentKeys: seq<string>, ownerKeys: map<string, seq<string>>, departmentMap: map<string, map<string, nat>>)
    ensures Grouping(departmentKeys, ownerKeys, departmentMap) == Grouped(projects)
  {
    departmentMap := map[];
    departmentKeys := [];
    ownerKeys := map[];
    var i := 0;
    while i < |projects|
      invariant 0 <= i <= |projects|
      invariant Grouping(departmentKeys, ownerKeys, departmentMap) == Grouped(projects[..i])
    {
      GroupedWellFormed(projects[..i]);
      assert projects[..i + 1][..i] == projects[..i];
      departmentKeys, ownerKeys, departmentMap := CountProject(departmentKeys, ownerKeys, departmentMap, projects[i]);
      i := i + 1;
    }
    assert projects[..i] == projects;
  }

  /** The rows pushed for the sorted departments, each with its sorted owners. */
  method PushDepartments(departmentKeys: seq<string>, ownerKeys: map<string, seq<string>>,
                         departmentMap: map<string, map<string, nat>>, ownerBefore: (string, string) -> bool)
    returns (result: seq<Row>)
    requires WellFormed(Grouping(departmentKeys, ownerKeys, departmentMap))
    ensures result == TableRows(Sort(departmentKeys, LexLess), Grouping(departmentKeys, ownerKeys, departmentMap), ownerBefore)
  {
    ghost var g := Grouping(departmentKeys, ownerKeys, departmentMap);
    var departments := Sort(departmentKeys, LexLess);
    result := [];
    var j := 0;
    while j < |departments|
      invariant 0 <= j <= |departments|
      invariant result == TableRows(departments[..j], g, ownerBefore)
    {
      var department := departments[j];
      SortedOwnersCounted(g, department, ownerBefore);
      var owners := Sort(ownerKeys[department], ownerBefore);
      result := PushOwners(result, department, owners, departmentMap[department], g);
      TableRowsSnoc(departments, g, ownerBefore, j);
      j := j + 1;
    }
    assert departments[..j] == departments;
  }

  /** One more department of the loop adds its rows at the end. */
  lemma TableRowsSnoc(departments: seq<string>, g: Grouping, ownerBefore: (string, string) -> bool, j: nat)
    requires j < |departments|
    ensures TableRows(departments[..j + 1], g, ownerBefore)
         == TableRows(departments[..j], g, ownerBefore) + GroupRows(departments[j], Sort(OwnersOf(g, departments[j]), ownerBefore), g)
  {
    assert departments[..j + 1][..j] == departments[..j];
  }

  /** A listed department has a dictionary entry, and so has each of its sorted owners. */
  lemma SortedOwnersCounted(g: Grouping, department: string, ownerBefore: (string, string) -> bool)
    requires WellFormed(g) && department in Sort(g.departments, LexLess)
    ensures department in g.counts && department in g.owners
    ensures forall owner :: owner in Sort(g.owners[department], ownerBefore) ==> owner in g.counts[department]
  {
    SortMembers(g.departments, LexLess, department);
    forall owner | owner in Sort(g.owners[department], ownerBefore)
      ensures owner in g.counts[department]
    {
      SortMembers(g.owners[department], ownerBefore, owner);
    }
  }

  /** The inner `forEach`: one row per owner, the department named on the first. */
  method PushOwners(result: seq<Row>, department: string, owners: seq<string>, counts: map<string, nat>, ghost g: Grouping)
    returns (result': seq<Row>)
    requires department in g.counts && counts == g.counts[department]
    requires forall owner :: owner in owners ==> owner in counts
    ensures result' == result + GroupRows(department, owners, g)
  {
    result' := result;
    var index := 0;
    while index < |owners|
      invariant 0 <= index <= |owners|
      invariant result' == result + GroupRows(department, owners[..index], g)
    {
      var owner := owners[index];
      result' := result' + [Row(if index == 0 then department else "", owner, counts[owner], index == 0)];
      GroupRowsPrefix(department, owners, g, index);
      index := index + 1;
    }
    assert owners[..index] == owners;
  }

  lemma GroupRowsPrefix(department: string, owners: seq<string>, g: Grouping, k: nat)
    requires k < |owners|
    ensures GroupRows(department, owners[..k + 1], g)
            == GroupRows(department, owners[..k], g) + [GroupRows(department, owners, g)[k]]
  {
  }

  /** The body of the `forEach`: the dictionary after counting `project`. */
  method CountProject(departmentKeys: seq<string>, ownerKeys: map<string, seq<string>>,
                      departmentMap: map<string, map<string, nat>>, project: Project)
    returns (keys': seq<string>, owners': map<string, seq<string>>, map': map<string, map<string, nat>>)
    requires WellFormed(Grouping(departmentKeys, ownerKeys, departmentMap))
    ensures Grouping(keys', owners', map') == GroupStep(Grouping(departmentKeys, ownerKeys, departmentMap), project)
  {
    keys', owners', map' := departmentKeys, ownerKeys, departmentMap;
    if project.department != "" && project.projectOwner != "" {
      var department := Trim(project.department);
      var owner := Trim(project.projectOwner);
      keys', owners', map' := AddOne(departmentKeys, ownerKeys, departmentMap, department, owner);
    }
  }

  /** Create the missing entries, then increment. */
  method AddOne(departmentKeys: seq<string>, ownerKeys: map<string, seq<string>>,
                departmentMap: map<string, map<string, nat>>, department: string, owner: string)
    returns (keys': seq<string>, owners': map<string, seq<string>>, map': map<string, map<string, nat>>)
    requires departmentMap.Keys == ownerKeys.Keys
    ensures Grouping(keys', owners', map') == Bump(Grouping(departmentKeys, ownerKeys, departmentMap), department, owner)
  {
    keys', owners', map' := departmentKeys, ownerKeys, departmentMap;
    ghost var inner := if department in departmentMap then departmentMap[department] else map[];
    ghost var order := if department in ownerKeys then ownerKeys[department] else [];
    if department !in map' {
      map' := map'[department := map[]];
      keys' := keys' + [department];
      owners' := owners'[department := []];
    }
    assert map' == departmentMap[department := inner];
    assert owners' == ownerKeys[department := order];
    if owner !in map'[department] {
      map' := map'[department := map'[department][owner := 0]];
      owners' := owners'[department := owners'[department] + [owner]];
    }
    ghost var before := if owner in inner then inner else inner[owner := 0];
    assert map' == departmentMap[department := before];
    assert before[owner := before[owner] + 1] == inner[owner := (if owner in inner then inner[owner] else 0) + 1];
    map' := map'[department := map'[department][owner := map'[department][owner] + 1]];
  }

  // ---- the dictionary ----

  lemma BumpWellFormed(g: Grouping, department: string, owner: string)
    requires WellFormed(g)
    ensures WellFormed(Bump(g, department, owner))
  {
    if department !in g.counts {
      assert department !in g.departments;
      DistinctAppend(g.departments, department);
    } else if owner !in g.counts[department] {
      assert owner !in g.owners[department];
      DistinctAppend(g.owners[department], owner);
    }
  }

  lemma DistinctAppend(s: seq<string>, x: string)
    requires Distinct(s) && x !in s
    ensures Distinct(s + [x])
  {
    var t := s + [x];
    forall a, b | 0 <= a < b < |t|
      ensures t[a] != t[b]
    {
      assert t[a] == s[a];
      if b < |s| {
        assert t[b] == s[b];
      }
    }
  }

  /** The key lists of the filled dictionary list its keys once each. */
  lemma {:induction false} GroupedWellFormed(projects: seq<Project>)
    ensures WellFormed(Grouped(projects))
  {
    if projects != [] {
      GroupedWellFormed(projects[..|projects| - 1]);
      var p := projects[|projects| - 1];
      if Counted(p) {
        BumpWellFormed(Grouped(projects[..|projects| - 1]), Trim(p.department), Trim(p.projectOwner));
      }
    }
  }

  /** The dictionary's entry for a pair is the number of projects grouped under it, present exactly when positive. */
  lemma {:induction false} GroupedCounts(projects: seq<Project>, department: string, owner: string)
    ensures CountOf(Grouped(projects), department, owner) == PairCount(projects, department, owner)
    ensures (department in Grouped(projects).counts && owner in Grouped(projects).counts[department])
            <==> PairCount(projects, department, owner) > 0
  {
    if projects != [] {
      var front := projects[..|projects| - 1];
      GroupedCounts(front, department, owner);
      GroupedWellFormed(front);
      GroupStepCounts(Grouped(front), projects[|projects| - 1], department, owner);
    }
  }

  /** One project adds one to its own pair's count, creating the entry, and nothing to the others. */
  lemma GroupStepCounts(g: Grouping, p: Project, department: string, owner: string)
    ensures CountOf(GroupStep(g, p), department, owner)
            == CountOf(g, department, owner) + (if GroupedUnder(p, department, owner) then 1 else 0)
    ensures (department in GroupStep(g, p).counts && owner in GroupStep(g, p).counts[department])
            <==> (department in g.counts && owner in g.counts[department]) || GroupedUnder(p, department, owner)
  {
  }

  // ---- the rows ----

  lemma {:induction false} TablePairsMembers(departments: seq<string>, g: Grouping, ownerBefore: (string, string) -> bool)
    ensures forall d, o :: (d, o) in TablePairs(departments, g, ownerBefore)
                           <==> d in departments && o in OwnersOf(g, d)
  {
    if departments != [] {
      var front := departments[..|departments| - 1];
      var department := departments[|departments| - 1];
      var owners := Sort(OwnersOf(g, department), ownerBefore);
      var last := seq(|owners|, k requires 0 <= k < |owners| => (department, owners[k]));
      TablePairsMembers(front, g, ownerBefore);
      FrontAndLast(departments);
      forall d, o
        ensures (d, o) in TablePairs(departments, g, ownerBefore) <==> d in departments && o in OwnersOf(g, d)
      {
        SortMembers(OwnersOf(g, department), ownerBefore, o);
        if (d, o) in last {
          var k :| 0 <= k < |last| && last[k] == (d, o);
        }
        if d == department && o in owners {
          var k :| 0 <= k < |owners| && owners[k] == o;
          assert last[k] == (d, o);
        }
      }
    }
  }

  /** Row `i` shows pair `i`: its owner, its count, and the department only where the department changes. */
  predicate RowShows(rows: seq<Row>, pairs: seq<(string, string)>, g: Grouping, i: int)
    requires 0 <= i < |rows| == |pairs|
  {
    && rows[i].owner == pairs[i].1
    && rows[i].count == CountOf(g, pairs[i].0, pairs[i].1)
    && rows[i].isFirstInDepartment == (i == 0 || pairs[i - 1].0 != pairs[i].0)
    && rows[i].department == (if rows[i].isFirstInDepartment then pairs[i].0 else "")
  }

  lemma {:induction false} TableRowsMatchPairs(departments: seq<string>, g: Grouping, ownerBefore: (string, string) -> bool)
    requires Distinct(departments)
    ensures |TableRows(departments, g, ownerBefore)| == |TablePairs(departments, g, ownerBefore)|
    ensures forall i :: 0 <= i < |TableRows(departments, g, ownerBefore)| ==>
      RowShows(TableRows(departments, g, ownerBefore), TablePairs(departments, g, ownerBefore), g, i)
  {
    if departments != [] {
      var front := departments[..|departments| - 1];
      var department := departments[|departments| - 1];
      var owners := Sort(OwnersOf(g, department), ownerBefore);
      DistinctFront(departments);
      TableRowsMatchPairs(front, g, ownerBefore);
      TablePairsMembers(front, g, ownerBefore);
      var rows0, pairs0 := TableRows(front, g, ownerBefore), TablePairs(front, g, ownerBefore);
      var last := seq(|owners|, k requires 0 <= k < |owners| => (department, owners[k]));
      assert pairs0 != [] ==> pairs0[|pairs0| - 1].0 != department by {
        if pairs0 != [] {
          var q := pairs0[|pairs0| - 1];
          assert (q.0, q.1) in pairs0;
        }
      }
      assert TableRows(departments, g, ownerBefore) == rows0 + GroupRows(department, owners, g);
      assert TablePairs(departments, g, ownerBefore) == pairs0 + last;
      AppendGroupShows(rows0, pairs0, department, owners, g);
    }
  }

  /** Appending a department's rows and pairs keeps every row showing its pair. */
  lemma AppendGroupShows(rows0: seq<Row>, pairs0: seq<(string, string)>, department: string, owners: seq<string>, g: Grouping)
    requires |rows0| == |pairs0|
    requires forall i :: 0 <= i < |rows0| ==> RowShows(rows0, pairs0, g, i)
    requires pairs0 != [] ==> pairs0[|pairs0| - 1].0 != department
    ensures var rows, pairs := rows0 + GroupRows(department, owners, g),
                               pairs0 + seq(|owners|, k requires 0 <= k < |owners| => (department, owners[k]));
      forall i :: 0 <= i < |rows| ==> RowShows(rows, pairs, g, i)
  {
    var last := seq(|owners|, k requires 0 <= k < |owners| => (department, owners[k]));
    var rows, pairs := rows0 + GroupRows(department, owners, g), pairs0 + last;
    forall i | 0 <= i < |rows|
      ensures RowShows(rows, pairs, g, i)
    {
      if i < |rows0| {
        assert rows[i] == rows0[i] && pairs[i] == pairs0[i];
        assert RowShows(rows0, pairs0, g, i);
        if i > 0 {
          assert pairs[i - 1] == pairs0[i - 1];
        }
      } else {
        var k := i - |rows0|;
        assert rows[i] == GroupRows(department, owners, g)[k] && pairs[i] == last[k];
        if k == 0 && i > 0 {
          assert pairs[i - 1] == pairs0[|pairs0| - 1];
        } else if k > 0 {
          assert pairs[i - 1] == last[k - 1];
        }
      }
    }
  }

  /** Rows come by department, then by owner. */
  lemma {:induction false} TablePairsOrdered(departments: seq<string>, g: Grouping, ownerBefore: (string, string) -> bool)
    requires StrictlySorted(departments, LexLess)
    requires IsStrictTotalOrder(ownerBefore)
    requires forall d :: d in departments ==> Distinct(OwnersOf(g, d))
    ensures forall i, j :: 0 <= i < j < |TablePairs(departments, g, ownerBefore)| ==>
      PairBefore(TablePairs(departments, g, ownerBefore)[i], TablePairs(departments, g, ownerBefore)[j], ownerBefore)
  {
    if departments != [] {
      var front := departments[..|departments| - 1];
      var department := departments[|departments| - 1];
      var owners := Sort(OwnersOf(g, department), ownerBefore);
      var last := seq(|owners|, k requires 0 <= k < |owners| => (department, owners[k]));
      var pairs, pairs0 := TablePairs(departments, g, ownerBefore), TablePairs(front, g, ownerBefore);
      assert pairs == pairs0 + last;
      TablePairsOrdered(front, g, ownerBefore);
      TablePairsMembers(front, g, ownerBefore);
      SortSorted(OwnersOf(g, department), ownerBefore);
      forall i, j | 0 <= i < j < |pairs|
        ensures PairBefore(pairs[i], pairs[j], ownerBefore)
      {
        if j < |pairs0| {
          assert pairs[i] == pairs0[i] && pairs[j] == pairs0[j];
        } else if i >= |pairs0| {
          assert pairs[i] == last[i - |pairs0|] && pairs[j] == last[j - |pairs0|];
        } else {
          assert pairs[i] == pairs0[i] && pairs0[i] in pairs0;
          assert pairs[j] == last[j - |pairs0|];
          var m :| 0 <= m < |front| && front[m] == pairs[i].0;
          assert departments[m] == pairs[i].0;
        }
      }
    }
  }

  // ---- what the table shows ----

  lemma GroupedDepartmentsDistinct(projects: seq<Project>)
    ensures Distinct(Grouped(projects).departments)
    ensures Distinct(Sort(Grouped(projects).departments, LexLess))
  {
    GroupedWellFormed(projects);
    SortDistinct(Grouped(projects).departments, LexLess);
  }

  /** Every row of the table shows the pair behind it. */
  lemma DetailRowsShowPairs(projects: seq<Project>, ownerBefore: (string, string) -> bool)
    ensures |DetailRows(projects, ownerBefore)| == |DetailPairs(projects, ownerBefore)|
    ensures forall i :: 0 <= i < |DetailRows(projects, ownerBefore)| ==>
      RowShows(DetailRows(projects, ownerBefore), DetailPairs(projects, ownerBefore), Grouped(projects), i)
  {
    GroupedDepartmentsDistinct(projects);
    TableRowsMatchPairs(Sort(Grouped(projects).departments, LexLess), Grouped(projects), ownerBefore);
  }

  /**
   * One row per (department, owner) pair with at least one project grouped
   * under it, and its count is the number of those projects.
   */
  lemma DetailRowsCounts(projects: seq<Project>, ownerBefore: (string, string) -> bool)
    ensures |DetailRows(projects, ownerBefore)| == |DetailPairs(projects, ownerBefore)|
    ensures forall i :: 0 <= i < |DetailRows(projects, ownerBefore)| ==>
      && DetailRows(projects, ownerBefore)[i].owner == DetailPairs(projects, ownerBefore)[i].1
      && DetailRows(projects, ownerBefore)[i].count
         == PairCount(projects, DetailPairs(projects, ownerBefore)[i].0, DetailPairs(projects, ownerBefore)[i].1)
  {
    DetailRowsShowPairs(projects, ownerBefore);
    var rows, pairs := DetailRows(projects, ownerBefore), DetailPairs(projects, ownerBefore);
    forall i | 0 <= i < |rows|
      ensures rows[i].owner == pairs[i].1
      ensures rows[i].count == PairCount(projects, pairs[i].0, pairs[i].1)
    {
      assert RowShows(rows, pairs, Grouped(projects), i);
      GroupedCounts(projects, pairs[i].0, pairs[i].1);
    }
  }

  /** The pairs shown are exactly those with at least one project grouped under them. */
  lemma DetailPairsMembers(projects: seq<Project>, ownerBefore: (string, string) -> bool)
    ensures forall d, o :: (d, o) in DetailPairs(projects, ownerBefore) <==> PairCount(projects, d, o) > 0
  {
    var g := Grouped(projects);
    TablePairsMembers(Sort(g.departments, LexLess), g, ownerBefore);
    forall d, o
      ensures (d, o) in DetailPairs(projects, ownerBefore) <==> PairCount(projects, d, o) > 0
    {
      GroupedCounts(projects, d, o);
      GroupedWellFormed(projects);
      SortMembers(g.departments, LexLess, d);
    }
  }

  /** Rows are ordered by department, then by owner; in particular no pair has two rows. */
  lemma DetailRowsOrdered(projects: seq<Project>, ownerBefore: (string, string) -> bool)
    requires IsStrictTotalOrder(ownerBefore)
    ensures forall i, j :: 0 <= i < j < |DetailPairs(projects, ownerBefore)| ==>
      PairBefore(DetailPairs(projects, ownerBefore)[i], DetailPairs(projects, ownerBefore)[j], ownerBefore)
  {
    var g := Grouped(projects);
    GroupedWellFormed(projects);
    LexLessIsStrictTotalOrder();
    SortSorted(g.departments, LexLess);
    TablePairsOrdered(Sort(g.departments, LexLess), g, ownerBefore);
  }

  /** Only the first row of a department names it and is flagged as first. */
  lemma DetailRowsFirstInDepartment(projects: seq<Project>, ownerBefore: (string, string) -> bool)
    ensures |DetailRows(projects, ownerBefore)| == |DetailPairs(projects, ownerBefore)|
    ensures forall i :: 0 <= i < |DetailRows(projects, ownerBefore)| ==>
      DetailRows(projects, ownerBefore)[i].isFirstInDepartment
      == (i == 0 || DetailPairs(projects, ownerBefore)[i - 1].0 != DetailPairs(projects, ownerBefore)[i].0)
    ensures forall i :: 0 <= i < |DetailRows(projects, ownerBefore)| ==>
      DetailRows(projects, ownerBefore)[i].department
      == (if DetailRows(projects, ownerBefore)[i].isFirstInDepartment then DetailPairs(projects, ownerBefore)[i].0 else "")
  {
    var rows, pairs, g := DetailRows(projects, ownerBefore), DetailPairs(projects, ownerBefore), Grouped(projects);
    DetailRowsShowPairs(projects, ownerBefore);
    forall i | 0 <= i < |rows|
      ensures rows[i].isFirstInDepartment == (i == 0 || pairs[i - 1].0 != pairs[i].0)
      ensures rows[i].department == (if rows[i].isFirstInDepartment then pairs[i].0 else "")
    {
      RowShowsFirst(rows, pairs, g, i);
    }
  }

  lemma RowShowsFirst(rows: seq<Row>, pairs: seq<(string, string)>, g: Grouping, i: int)
    requires 0 <= i < |rows| == |pairs| && RowShows(rows, pairs, g, i)
    ensures rows[i].isFirstInDepartment == (i == 0 || pairs[i - 1].0 != pairs[i].0)
    ensures rows[i].department == (if rows[i].isFirstInDepartment then pairs[i].0 else "")
  {
  }

  lemma LexLessIsStrictTotalOrder()
    ensures IsStrictTotalOrder(LexLess)
  {
    forall a ensures !LexLess(a, a) {
      LexLessIrreflexive(a);
    }
    forall a, b, c | LexLess(a, b) && LexLess(b, c) ensures LexLess(a, c) {
      LexLessTransitive(a, b, c);
    }
    forall a, b | a != b ensures LexLess(a, b) || LexLess(b, a) {
      LexLessTotal(a, b);
    }
  }

  // ---- the total ----

  function OwnerCount(g: Grouping, department: string): string -> nat {
    owner => CountOf(g, department, owner)
  }

  /** The projects counted under one department. */
  function DepartmentTotal(g: Grouping, department: string): nat {
    SumOf(OwnersOf(g, department), OwnerCount(g, department))
  }

  function DepartmentCount(g: Grouping): string -> nat {
    department => DepartmentTotal(g, department)
  }

  /** All the counts in the dictionary. */
  function GroupTotal(g: Grouping): nat {
    SumOf(g.departments, DepartmentCount(g))
  }

  /** Bumping a pair leaves every other department's total alone. */
  lemma BumpOtherDepartments(g: Grouping, department: string, owner: string, d: string)
    requires d != department
    ensures DepartmentTotal(Bump(g, department, owner), d) == DepartmentTotal(g, d)
  {
    var g' := Bump(g, department, owner);
    assert OwnersOf(g', d) == OwnersOf(g, d);
    SumOfCongruent(OwnersOf(g, d), OwnerCount(g', d), OwnerCount(g, d));
  }

  /** Bumping a pair adds one to its department's total. */
  lemma BumpDepartment(g: Grouping, department: string, owner: string)
    requires WellFormed(g)
    ensures DepartmentTotal(Bump(g, department, owner), department) == DepartmentTotal(g, department) + 1
  {
    var g' := Bump(g, department, owner);
    var order := OwnersOf(g, department);
    if department !in g.counts {
      assert OwnersOf(g', department) == [owner];
      assert CountOf(g', department, owner) == 1;
      SumOfSingleton(owner, OwnerCount(g', department));
    } else if owner !in g.counts[department] {
      assert owner !in order;
      assert OwnersOf(g', department) == order + [owner];
      SumOfCongruent(order, OwnerCount(g', department), OwnerCount(g, department));
      SumOfAppend(order, owner, OwnerCount(g', department));
    } else {
      assert OwnersOf(g', department) == order;
      SumOfBump(order, OwnerCount(g, department), OwnerCount(g', department), owner);
    }
  }

  lemma BumpTotal(g: Grouping, department: string, owner: string)
    requires WellFormed(g)
    ensures GroupTotal(Bump(g, department, owner)) == GroupTotal(g) + 1
  {
    var g' := Bump(g, department, owner);
    forall d | d != department
      ensures DepartmentCount(g')(d) == DepartmentCount(g)(d)
    {
      BumpOtherDepartments(g, department, owner, d);
    }
    BumpDepartment(g, department, owner);
    if department !in g.counts {
      assert department !in g.departments;
      SumOfCongruent(g.departments, DepartmentCount(g'), DepartmentCount(g));
      SumOfAppend(g.departments, department, DepartmentCount(g'));
    } else {
      SumOfBump(g.departments, DepartmentCount(g), DepartmentCount(g'), department);
    }
  }

  lemma {:induction false} GroupedTotal(projects: seq<Project>)
    ensures GroupTotal(Grouped(projects)) == CountedCount(projects)
  {
    if projects != [] {
      var front := projects[..|projects| - 1];
      GroupedTotal(front);
      GroupedWellFormed(front);
      var p := projects[|projects| - 1];
      if Counted(p) {
        BumpTotal(Grouped(front), Trim(p.department), Trim(p.projectOwner));
      }
    }
  }

  /** Summing counts over rows that show the given owners' counts. */
  lemma {:induction false} RowsSumOwners(rows: seq<Row>, owners: seq<string>, g: Grouping, department: string)
    requires |rows| == |owners|
    requires forall k :: 0 <= k < |rows| ==> rows[k].count == CountOf(g, department, owners[k])
    ensures SumOf(rows, RowCount) == SumOf(owners, OwnerCount(g, department))
  {
    if rows != [] {
      RowsSumOwners(rows[1..], owners[1..], g, department);
    }
  }

  /** A department's rows add up to its total, whatever order its owners are sorted in. */
  lemma GroupRowsTotal(department: string, g: Grouping, ownerBefore: (string, string) -> bool)
    ensures SumOf(GroupRows(department, Sort(OwnersOf(g, department), ownerBefore), g), RowCount)
            == DepartmentTotal(g, department)
  {
    var owners := Sort(OwnersOf(g, department), ownerBefore);
    RowsSumOwners(GroupRows(department, owners, g), owners, g, department);
    SumOfPermutation(owners, OwnersOf(g, department), OwnerCount(g, department));
  }

  lemma {:induction false} TableRowsTotal(departments: seq<string>, g: Grouping, ownerBefore: (string, string) -> bool)
    ensures SumOf(TableRows(departments, g, ownerBefore), RowCount) == SumOf(departments, DepartmentCount(g))
  {
    if departments != [] {
      var front := departments[..|departments| - 1];
      var department := departments[|departments| - 1];
      var rows := GroupRows(department, Sort(OwnersOf(g, department), ownerBefore), g);
      assert TableRows(departments, g, ownerBefore) == TableRows(front, g, ownerBefore) + rows;
      TableRowsTotal(front, g, ownerBefore);
      SumOfConcat(TableRows(front, g, ownerBefore), rows, RowCount);
      GroupRowsTotal(department, g, ownerBefore);
      FrontAndLast(departments);
      SumOfAppend(front, department, DepartmentCount(g));
    }
  }

  /** The counts in the table add up to the number of projects that pass the emptiness check. */
  lemma DetailRowsTotal(projects: seq<Project>, ownerBefore: (string, string) -> bool)
    ensures SumOf(DetailRows(projects, ownerBefore), RowCount) == CountedCount(projects)
  {
    var g := Grouped(projects);
    TableRowsTotal(Sort(g.departments, LexLess), g, ownerBefore);
    SumOfPermutation(Sort(g.departments, LexLess), g.departments, DepartmentCount(g));
    GroupedTotal(projects);
  }
}

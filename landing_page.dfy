/**
 * The dashboard page (frontend/src/pages/LandingPage.jsx): the status
 * filter buttons with the search box, the dashboard counts, and the
 * ten-per-page pagination with its page-button window.
 */
module LandingPage {
  import opened Base
  import opened Text
  import opened ProjectModel
  import opened ProjectTable

  predicate HasStatus(p: Project, status: string) {
    OverallStatus(p.stages) == status
  }

  /** The overall status a filter button asks for; "all" (and anything else) asks for none. */
  function WantedStatus(filterType: string): Option<string> {
    if filterType == "completed" then Some("Completed")
    else if filterType == "inProgress" then Some("In Progress")
    else if filterType == "delayed" then Some("Delayed")
    else None
  }

  function StatusFiltered(projects: seq<Project>, filterType: string): seq<Project> {
    if filterType == "completed" then Filter(projects, p => HasStatus(p, "Completed"))
    else if filterType == "inProgress" then Filter(projects, p => HasStatus(p, "In Progress"))
    else if filterType == "delayed" then Filter(projects, p => HasStatus(p, "Delayed"))
    else projects
  }

  /** `getFilteredProjects`: the status filter, then the search filter when a term is typed. */
  function FilteredProjects(projects: seq<Project>, filterType: string, searchTerm: string): seq<Project> {
    var filtered := StatusFiltered(projects, filterType);
    if searchTerm != "" then SearchFiltered(filtered, searchTerm) else filtered
  }

  /** A project passes the filters: it has the wanted status, if any, and matches the term. */
  predicate Passes(p: Project, filterType: string, searchTerm: string) {
    (WantedStatus(filterType).Some? ==> HasStatus(p, WantedStatus(filterType).value))
    && MatchesSearch(p, searchTerm)
  }

  function PassesPredicate(filterType: string, searchTerm: string): Project -> bool {
    p => Passes(p, filterType, searchTerm)
  }

  function WantedPredicate(filterType: string): Project -> bool {
    p => WantedStatus(filterType).Some? ==> HasStatus(p, WantedStatus(filterType).value)
  }

  lemma StatusFilteredIsFilter(projects: seq<Project>, filterType: string)
    ensures StatusFiltered(projects, filterType) == Filter(projects, WantedPredicate(filterType))
  {
    var w := WantedStatus(filterType);
    var q := WantedPredicate(filterType);
    if w.None? {
      FilterAll(projects, q);
    } else {
      FilterCongruent(projects, p => HasStatus(p, w.value), q);
    }
  }

  lemma FilteredIsFilter(projects: seq<Project>, filterType: string, searchTerm: string)
    ensures FilteredProjects(projects, filterType, searchTerm) == Filter(projects, PassesPredicate(filterType, searchTerm))
  {
    StatusFilteredIsFilter(projects, filterType);
    if searchTerm == "" {
      NoTermIsStatusFilter(projects, filterType);
    } else {
      FilterFilter(projects, WantedPredicate(filterType), SearchPredicate(searchTerm), PassesPredicate(filterType, searchTerm));
    }
  }

  lemma NoTermIsStatusFilter(projects: seq<Project>, filterType: string)
    ensures Filter(projects, WantedPredicate(filterType)) == Filter(projects, PassesPredicate(filterType, ""))
  {
    forall p | p in projects ensures WantedPredicate(filterType)(p) == PassesPredicate(filterType, "")(p) {
      IncludesEmpty(ToLower(p.projectId));
    }
    FilterCongruent(projects, WantedPredicate(filterType), PassesPredicate(filterType, ""));
  }

  /**
   * The filtered list is the projects passing both filters, in their
   * original order; with no term only the status filter applies.
   */
  lemma FilteredProjectsMeaning(projects: seq<Project>, filterType: string, searchTerm: string)
    ensures IsSubsequence(FilteredProjects(projects, filterType, searchTerm), projects)
    ensures forall p :: p in FilteredProjects(projects, filterType, searchTerm) <==>
      p in projects && Passes(p, filterType, searchTerm)
  {
    FilteredIsFilter(projects, filterType, searchTerm);
    FilterIsSubsequence(projects, PassesPredicate(filterType, searchTerm));
  }

  /** The "all" filter applies no status restriction. */
  lemma AllFilterKeepsEveryStatus(projects: seq<Project>, searchTerm: string)
    ensures FilteredProjects(projects, "all", searchTerm) == SearchFiltered(projects, searchTerm)
    ensures FilteredProjects(projects, "all", "") == projects
  {
    EmptySearchKeepsAll(projects);
  }

  // Dashboard counts

  datatype DashboardCounts = DashboardCounts(total: nat, completed: nat, inProgress: nat, delayed: nat)

  function Counts(projects: seq<Project>): DashboardCounts {
    DashboardCounts(|projects|,
                    |Filter(projects, p => HasStatus(p, "Completed"))|,
                    |Filter(projects, p => HasStatus(p, "In Progress"))|,
                    |Filter(projects, p => HasStatus(p, "Delayed"))|)
  }

  /** Each project has one overall status, so the three counts add up to at most the total. */
  lemma {:induction false} CountsWithinTotal(projects: seq<Project>)
    ensures var c := Counts(projects); c.completed + c.inProgress + c.delayed <= c.total
    decreases |projects|
  {
    if projects != [] {
      CountsWithinTotal(projects[1..]);
    }
  }

  // Pagination

  const ProjectsPerPage: nat := 10

  /** `s.slice(from, to)` for non-negative bounds. */
  function Slice<T>(s: seq<T>, from: nat, to: nat): seq<T> {
    var lo, hi := Min(from, |s|), Min(to, |s|);
    if lo < hi then s[lo..hi] else []
  }

  /** The projects on page `currentPage` (counted from 1). */
  function CurrentProjects(filtered: seq<Project>, currentPage: nat): seq<Project>
    requires currentPage >= 1
  {
    var indexOfLastProject := currentPage * ProjectsPerPage;
    var indexOfFirstProject := indexOfLastProject - ProjectsPerPage;
    Slice(filtered, indexOfFirstProject, indexOfLastProject)
  }

  /** `Math.ceil(n / 10)`. */
  function TotalPages(n: nat): nat {
    (n + ProjectsPerPage - 1) / ProjectsPerPage
  }

  /** Page p shows the filtered indices from (p-1)*10 up to, not including, p*10. */
  lemma CurrentProjectsAreIndices(filtered: seq<Project>, currentPage: nat)
    requires currentPage >= 1
    ensures var r := CurrentProjects(filtered, currentPage); var first := (currentPage - 1) * ProjectsPerPage;
      |r| == (if first >= |filtered| then 0 else Min(ProjectsPerPage, |filtered| - first))
      && forall k :: 0 <= k < |r| ==> r[k] == filtered[first + k]
  {
  }

  /** The page count is the least number of ten-project pages that hold the list. */
  lemma TotalPagesIsCeiling(n: nat)
    ensures TotalPages(n) * ProjectsPerPage >= n
    ensures n > 0 ==> (TotalPages(n) - 1) * ProjectsPerPage < n
    ensures TotalPages(n) == 0 <==> n == 0
  {
  }

  /** Pages p to last, one after the other. */
  function Pages(filtered: seq<Project>, p: nat, last: nat): seq<Project>
    requires p >= 1
    decreases last + 1 - p
  {
    if p > last then [] else CurrentProjects(filtered, p) + Pages(filtered, p + 1, last)
  }

  lemma {:induction false} PagesFrom(filtered: seq<Project>, p: nat)
    requires p >= 1
    ensures Pages(filtered, p, TotalPages(|filtered|)) == filtered[Min((p - 1) * ProjectsPerPage, |filtered|)..]
    decreases TotalPages(|filtered|) + 1 - p
  {
    var last := TotalPages(|filtered|);
    TotalPagesIsCeiling(|filtered|);
    if p <= last {
      PagesFrom(filtered, p + 1);
      var first := (p - 1) * ProjectsPerPage;
      assert first < |filtered|;
      var hi := Min(p * ProjectsPerPage, |filtered|);
      assert CurrentProjects(filtered, p) == filtered[first..hi];
      assert filtered[first..hi] + filtered[hi..] == filtered[first..];
    }
  }

  /** Paging through every page shows the whole filtered list once, in order. */
  lemma PagesCoverList(filtered: seq<Project>)
    ensures Pages(filtered, 1, TotalPages(|filtered|)) == filtered
  {
    PagesFrom(filtered, 1);
  }

  /** The numbers in "Showing a to b of n projects". */
  function ShowingRange(currentPage: nat, n: nat): (nat, nat)
    requires currentPage >= 1
  {
    var indexOfLastProject := currentPage * ProjectsPerPage;
    var indexOfFirstProject := indexOfLastProject - ProjectsPerPage;
    (indexOfFirstProject + 1, Min(indexOfLastProject, n))
  }

  function ShowingLine(currentPage: nat, n: nat): string
    requires currentPage >= 1
  {
    var (a, b) := ShowingRange(currentPage, n);
    "Showing " + NatToString(a) + " to " + NatToString(b) + " of " + NatToString(n) + " projects"
  }

  /** On an existing page the line names exactly the shown projects, by position from 1. */
  lemma ShowingRangeMatchesPage(filtered: seq<Project>, currentPage: nat)
    requires 1 <= currentPage <= TotalPages(|filtered|)
    ensures var (a, b) := ShowingRange(currentPage, |filtered|); var r := CurrentProjects(filtered, currentPage);
      1 <= a <= b <= |filtered| && b - a + 1 == |r| && r == filtered[a - 1..b]
  {
    TotalPagesIsCeiling(|filtered|);
    CurrentProjectsAreIndices(filtered, currentPage);
  }

  // The page-button window

  datatype PageItem = PageButton(page: nat, active: bool) | Ellipsis(page: nat)

  predicate ButtonShown(page: int, totalPages: int, currentPage: int) {
    page == 1 || page == totalPages || (currentPage - 1 <= page <= currentPage + 1)
  }

  predicate EllipsisShown(page: int, totalPages: int, currentPage: int) {
    !ButtonShown(page, totalPages, currentPage) && (page == currentPage - 2 || page == currentPage + 2)
  }

  /** The items for pages `page` to `totalPages`: a button, an ellipsis, or nothing per page. */
  function Window(page: nat, totalPages: nat, currentPage: nat): seq<PageItem>
    decreases totalPages + 1 - page
  {
    if page > totalPages then []
    else
      (if ButtonShown(page, totalPages, currentPage) then [PageButton(page, currentPage == page)]
       else if EllipsisShown(page, totalPages, currentPage) then [Ellipsis(page)]
       else [])
      + Window(page + 1, totalPages, currentPage)
  }

  function PageItems(totalPages: nat, currentPage: nat): seq<PageItem> {
    Window(1, totalPages, currentPage)
  }

  /** The item, if any, that page `page` contributes. */
  function WindowHead(page: nat, totalPages: nat, currentPage: nat): (h: seq<PageItem>)
    ensures |h| <= 1 && forall k :: 0 <= k < |h| ==> h[k].page == page && ItemAllowed(h[k], totalPages, currentPage)
    ensures ButtonShown(page, totalPages, currentPage) || EllipsisShown(page, totalPages, currentPage) ==> |h| == 1
  {
    if ButtonShown(page, totalPages, currentPage) then [PageButton(page, currentPage == page)]
    else if EllipsisShown(page, totalPages, currentPage) then [Ellipsis(page)]
    else []
  }

  lemma WindowUnfold(page: nat, totalPages: nat, currentPage: nat)
    requires page <= totalPages
    ensures Window(page, totalPages, currentPage) == WindowHead(page, totalPages, currentPage) + Window(page + 1, totalPages, currentPage)
  {
  }

  lemma {:induction false} WindowInOrder(page: nat, totalPages: nat, currentPage: nat)
    ensures var w := Window(page, totalPages, currentPage);
      (forall k :: 0 <= k < |w| ==> page <= w[k].page <= totalPages && ItemAllowed(w[k], totalPages, currentPage))
      && (forall k, l :: 0 <= k < l < |w| ==> w[k].page < w[l].page)
    decreases totalPages + 1 - page
  {
    if page <= totalPages {
      var w := Window(page, totalPages, currentPage);
      var rest := Window(page + 1, totalPages, currentPage);
      var head := WindowHead(page, totalPages, currentPage);
      WindowInOrder(page + 1, totalPages, currentPage);
      WindowUnfold(page, totalPages, currentPage);
      forall k | 0 <= k < |w| ensures page <= w[k].page <= totalPages && ItemAllowed(w[k], totalPages, currentPage) {
        if k >= |head| {
          assert w[k] == rest[k - |head|];
        } else {
          assert w[k] == head[k];
        }
      }
      forall k, l | 0 <= k < l < |w| ensures w[k].page < w[l].page {
        assert w[l] == rest[l - |head|];
        if k >= |head| {
          assert w[k] == rest[k - |head|];
        } else {
          assert w[k] == head[k];
        }
      }
    }
  }

  lemma {:induction false} WindowCovers(page: nat, totalPages: nat, currentPage: nat, q: nat)
    requires page <= q <= totalPages && (ButtonShown(q, totalPages, currentPage) || EllipsisShown(q, totalPages, currentPage))
    ensures exists k :: 0 <= k < |Window(page, totalPages, currentPage)| && Window(page, totalPages, currentPage)[k].page == q
    decreases totalPages + 1 - page
  {
    var w := Window(page, totalPages, currentPage);
    var head := WindowHead(page, totalPages, currentPage);
    WindowUnfold(page, totalPages, currentPage);
    if q == page {
      assert w[0] == head[0];
    } else {
      var rest := Window(page + 1, totalPages, currentPage);
      WindowCovers(page + 1, totalPages, currentPage, q);
      var k :| 0 <= k < |rest| && rest[k].page == q;
      assert w[k + |head|] == rest[k];
    }
  }

  predicate ItemAllowed(item: PageItem, totalPages: nat, currentPage: nat) {
    if item.PageButton? then ButtonShown(item.page, totalPages, currentPage) && item.active == (item.page == currentPage)
    else EllipsisShown(item.page, totalPages, currentPage)
  }

  /**
   * The window has a button for page 1, the last page and the pages next
   * to the current one, an ellipsis exactly two pages away from the
   * current one where no button is, nothing else, and goes in page order.
   */
  lemma PageItemsShape(totalPages: nat, currentPage: nat)
    ensures var items := PageItems(totalPages, currentPage);
      (forall q :: 1 <= q <= totalPages ==> (PageButton(q, q == currentPage) in items <==> ButtonShown(q, totalPages, currentPage)))
      && (forall q: nat :: Ellipsis(q) in items <==> 1 <= q <= totalPages && EllipsisShown(q, totalPages, currentPage))
      && (forall k, l :: 0 <= k < l < |items| ==> items[k].page < items[l].page)
  {
    var items := PageItems(totalPages, currentPage);
    WindowInOrder(1, totalPages, currentPage);
    forall q | 1 <= q <= totalPages && ButtonShown(q, totalPages, currentPage)
      ensures PageButton(q, q == currentPage) in items
    {
      WindowCovers(1, totalPages, currentPage, q);
      var k :| 0 <= k < |items| && items[k].page == q;
    }
    forall q: nat | 1 <= q <= totalPages && EllipsisShown(q, totalPages, currentPage)
      ensures Ellipsis(q) in items
    {
      WindowCovers(1, totalPages, currentPage, q);
      var k :| 0 <= k < |items| && items[k].page == q;
    }
  }

  // Resetting the page

  /** What the page shows: the filter, the search term and the page number. */
  datatype View = View(filterType: string, searchTerm: string, currentPage: nat)

  /** The effect on `[filterType, searchTerm]`: a change of either sends the view to page 1. */
  function Settle(previous: View, next: View): View {
    if next.filterType != previous.filterType || next.searchTerm != previous.searchTerm
    then next.(currentPage := 1)
    else next
  }

  /** After a filter or search change the first ten matching projects are shown; otherwise the page stays. */
  lemma FilterChangeShowsFirstPage(projects: seq<Project>, previous: View, next: View)
    ensures var v := Settle(previous, next); var filtered := FilteredProjects(projects, v.filterType, v.searchTerm);
      (next.filterType != previous.filterType || next.searchTerm != previous.searchTerm ==>
         v.currentPage == 1 && CurrentProjects(filtered, v.currentPage) == filtered[..Min(ProjectsPerPage, |filtered|)])
      && (next.filterType == previous.filterType && next.searchTerm == previous.searchTerm ==> v == next)
  {
  }
}

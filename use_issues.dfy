/**
 * The filter normalisation of the issue list hook (src/hooks/useIssues.ts): a caller's
 * partial filters are completed with the full option lists, `showOnlyOpen` narrows the
 * statuses to the three non-terminal ones, and archived issues are hidden unless asked for.
 */
module UseIssues {
  import opened Wrappers
  import opened IssueTypes
  import opened IssueOptions
  import opened IssueService

  /** The statuses `showOnlyOpen` keeps: everything before Resolved in the workflow. */
  const OpenStatuses: seq<Status> := [New, InProgress, AwaitingCustomer]

  /** `defaultFilters`: the three full option lists and no optional field. */
  const DefaultFilters: IssueFilters := IssueFilters(AllCategories, AllStatuses, AllPriorities, None, None, None, None)

  /**
   * What the memo evaluates to, field by field: the caller's value where given, the
   * default otherwise, with the two overrides applied. `filters` None is a call without
   * an argument.
   */
  function Merged(filters: Option<FiltersPatch>): IssueFilters {
    var p := filters.GetOr(NoFilterChange);
    IssueFilters(
      p.categories.GetOr(AllCategories),
      if IsSet(p.showOnlyOpen.GetOr(None)) then OpenStatuses else p.statuses.GetOr(AllStatuses),
      p.priorities.GetOr(AllPriorities),
      p.assignee.GetOr(None),
      p.showOnlyOpen.GetOr(None),
      p.search.GetOr(None),
      Some(p.showArchived.GetOr(None).GetOr(false)))
  }

  /**
   * `mergedFilters`: the spread of defaults and caller filters, then `statuses`
   * overwritten when `showOnlyOpen` is set, then `showArchived` defaulted to false.
   */
  method MergedFilters(filters: Option<FiltersPatch>) returns (r: IssueFilters)
    ensures r == Merged(filters)
    ensures filters.None? ==> r == DefaultFilters.(showArchived := Some(false))
    ensures var p := filters.GetOr(NoFilterChange);
      && r.categories == (if p.categories.Some? then p.categories.value else AllCategories)
      && r.priorities == (if p.priorities.Some? then p.priorities.value else AllPriorities)
      && (IsSet(p.showOnlyOpen.GetOr(None)) ==> r.statuses == OpenStatuses)
      && (!IsSet(p.showOnlyOpen.GetOr(None)) ==> r.statuses == (if p.statuses.Some? then p.statuses.value else AllStatuses))
      && r.showArchived.Some?
      && (IsSet(r.showArchived) <==> IsSet(p.showArchived.GetOr(None)))
      && r.assignee == p.assignee.GetOr(None)
      && r.search == p.search.GetOr(None)
      && r.showOnlyOpen == p.showOnlyOpen.GetOr(None)
  {
    var p := filters.GetOr(NoFilterChange);
    r := IssueFilters(
      p.categories.GetOr(AllCategories),
      p.statuses.GetOr(AllStatuses),
      p.priorities.GetOr(AllPriorities),
      p.assignee.GetOr(None),
      p.showOnlyOpen.GetOr(None),
      p.search.GetOr(None),
      p.showArchived.GetOr(None));
    if IsSet(p.showOnlyOpen.GetOr(None)) {
      r := r.(statuses := OpenStatuses);
    }
    r := r.(showArchived := Some(p.showArchived.GetOr(None).GetOr(false)));
  }

  /** With `showOnlyOpen` the query never returns a Resolved or Closed issue, whatever statuses were asked for. */
  lemma ShowOnlyOpenExcludesTerminal(filters: FiltersPatch, i: Issue)
    requires IsSet(filters.showOnlyOpen.GetOr(None))
    requires MatchesQuery(i, Merged(Some(filters)))
    ensures i.status in OpenStatuses
    ensures i.status != Resolved && i.status != Closed
  {
    OptionListsComplete();
  }

  /** The hook called without an argument lists exactly the issues that are not archived. */
  lemma DefaultViewIsActiveIssues(i: Issue)
    ensures MatchesQuery(i, Merged(None)) <==> !i.isArchived
  {
    OptionListsComplete();
  }

  /** Asking for archived issues lists exactly the archived ones when nothing else is filtered. */
  lemma ArchivedViewIsArchivedIssues(i: Issue)
    ensures MatchesQuery(i, Merged(Some(NoFilterChange.(showArchived := Some(Some(true)))))) <==> i.isArchived
  {
    OptionListsComplete();
  }
}

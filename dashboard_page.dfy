/**
 * The dashboard page (src/pages/DashboardPage.tsx): the filter state and its reducer,
 * the acting user, and the handlers through which the table, the drawer and the new
 * issue dialog reach the store.
 */
module DashboardPage {
  import opened Wrappers
  import opened IssueTypes
  import opened IssueOptions
  import opened IssueService
  import opened UseIssues

  /** `initialFilters`: every option selected, archived issues hidden. */
  const InitialFilters: IssueFilters := IssueFilters(AllCategories, AllStatuses, AllPriorities, None, None, None, Some(false))

  /** `filtersReducer`: `{ ...state, ...action }`, field by field. */
  function FiltersReducer(state: IssueFilters, action: FiltersPatch): IssueFilters {
    IssueFilters(
      action.categories.GetOr(state.categories),
      action.statuses.GetOr(state.statuses),
      action.priorities.GetOr(state.priorities),
      action.assignee.GetOr(state.assignee),
      action.showOnlyOpen.GetOr(state.showOnlyOpen),
      action.search.GetOr(state.search),
      action.showArchived.GetOr(state.showArchived))
  }

  /** Two patches applied one after the other, as one patch: the later one wins field by field. */
  function ThenPatch(first: FiltersPatch, second: FiltersPatch): FiltersPatch {
    FiltersPatch(
      if second.categories.Some? then second.categories else first.categories,
      if second.statuses.Some? then second.statuses else first.statuses,
      if second.priorities.Some? then second.priorities else first.priorities,
      if second.assignee.Some? then second.assignee else first.assignee,
      if second.showOnlyOpen.Some? then second.showOnlyOpen else first.showOnlyOpen,
      if second.search.Some? then second.search else first.search,
      if second.showArchived.Some? then second.showArchived else first.showArchived)
  }

  /** The reducer replaces exactly the patched fields and keeps every other one. */
  lemma FiltersReducerReplaces(state: IssueFilters, action: FiltersPatch)
    ensures var r := FiltersReducer(state, action);
      && (action.categories.Some? ==> r.categories == action.categories.value)
      && (action.categories.None? ==> r.categories == state.categories)
      && (action.statuses.Some? ==> r.statuses == action.statuses.value)
      && (action.statuses.None? ==> r.statuses == state.statuses)
      && (action.priorities.Some? ==> r.priorities == action.priorities.value)
      && (action.priorities.None? ==> r.priorities == state.priorities)
      && (action.assignee.Some? ==> r.assignee == action.assignee.value)
      && (action.assignee.None? ==> r.assignee == state.assignee)
      && (action.showOnlyOpen.Some? ==> r.showOnlyOpen == action.showOnlyOpen.value)
      && (action.showOnlyOpen.None? ==> r.showOnlyOpen == state.showOnlyOpen)
      && (action.search.Some? ==> r.search == action.search.value)
      && (action.search.None? ==> r.search == state.search)
      && (action.showArchived.Some? ==> r.showArchived == action.showArchived.value)
      && (action.showArchived.None? ==> r.showArchived == state.showArchived)
  {
  }

  /** The empty patch is the identity, a patch applied twice acts once, and two patches in a row act as their combination. */
  lemma FiltersReducerAlgebra(state: IssueFilters, action: FiltersPatch, later: FiltersPatch)
    ensures FiltersReducer(state, NoFilterChange) == state
    ensures FiltersReducer(FiltersReducer(state, action), action) == FiltersReducer(state, action)
    ensures FiltersReducer(FiltersReducer(state, action), later) == FiltersReducer(state, ThenPatch(action, later))
  {
  }

  /** The patch the Show Archived switch dispatches. */
  function ShowArchivedPatch(checked: bool): FiltersPatch {
    NoFilterChange.(showArchived := Some(Some(checked)))
  }

  /** Flipping the switch changes `showArchived` and nothing else. */
  lemma ShowArchivedSwitchOnlyFlag(state: IssueFilters, checked: bool)
    ensures FiltersReducer(state, ShowArchivedPatch(checked)) == state.(showArchived := Some(checked))
  {
  }

  /** A full filter record handed to the hook: every field present. */
  function AsArgument(f: IssueFilters): FiltersPatch {
    FiltersPatch(Some(f.categories), Some(f.statuses), Some(f.priorities), Some(f.assignee),
                 Some(f.showOnlyOpen), Some(f.search), Some(f.showArchived))
  }

  /**
   * The dashboard opens on the active issues, and turning the switch on shows exactly
   * the archived ones.
   */
  lemma DashboardViews(i: Issue)
    ensures MatchesQuery(i, Merged(Some(AsArgument(InitialFilters)))) <==> !i.isArchived
    ensures MatchesQuery(i, Merged(Some(AsArgument(FiltersReducer(InitialFilters, ShowArchivedPatch(true)))))) <==> i.isArchived
  {
    OptionListsComplete();
  }

  /** `user?.email ?? 'system@ops'`: the signed-in email, even an empty one, else the fallback. */
  function ActiveUser(email: Option<string>): (r: string)
    ensures email.Some? ==> r == email.value
    ensures email.None? ==> r == "system@ops"
  {
    email.GetOr("system@ops")
  }

  /** A call a screen makes on one of the dashboard's update handlers. */
  datatype Command =
    | UpdateCmd(id: IssueId, patch: IssuePatch, message: Option<string>)
    | StatusCmd(id: IssueId, status: Status)
    | ArchiveCmd(id: IssueId)
    | UnarchiveCmd(id: IssueId)

  /**
   * The guard the status menu and the drawer apply before calling handleStatusChange:
   * picking the status the issue already shows issues no write.
   */
  function StatusChange(id: IssueId, shown: Status, picked: Status): (r: Option<Command>)
    ensures r.None? <==> picked == shown
    ensures r.Some? ==> r.value == StatusCmd(id, picked)
  {
    if picked != shown then Some(StatusCmd(id, picked)) else None
  }

  /** What a command does to the issue it names. */
  function Effect(i: Issue, cmd: Command, now: Time): (r: Issue)
    ensures r.serialNumber == i.serialNumber && r.createdAt == i.createdAt && r.updatedAt == now
  {
    match cmd
    case UpdateCmd(_, patch, _) => ApplyPatch(i, patch, now)
    case StatusCmd(_, s) => WithStatus(i, s, now)
    case ArchiveCmd(_) => WithArchived(i, true, now)
    case UnarchiveCmd(_) => WithArchived(i, false, now)
  }

  /** The activity a command logs. */
  function Entry(cmd: Command, actor: string, now: Time): (a: Activity)
    ensures a.actor == actor && a.timestamp == now
    ensures a.action == Closure <==> cmd.StatusCmd? && cmd.status == Closed
  {
    match cmd
    case UpdateCmd(_, _, message) => Activity(actor, Comment, message.GetOr("Issue updated"), now)
    case StatusCmd(_, s) => StatusActivity(s, actor, now)
    case ArchiveCmd(_) => Activity(actor, Comment, "Issue archived", now)
    case UnarchiveCmd(_) => Activity(actor, Comment, "Issue unarchived", now)
  }

  /**
   * handleUpdateIssue, handleStatusChange, handleArchiveIssue and handleUnarchiveIssue:
   * each passes its arguments and the active user to the matching service call.
   */
  method Perform(store: IssueStore, cmd: Command, email: Option<string>, now: Time) returns (ok: bool)
    requires store.Valid() && store.clock <= now
    modifies store
    ensures store.Valid()
    ensures ok == (cmd.id in old(store.issues)) && store.counter == old(store.counter)
    ensures ok ==> store.issues == old(store.issues)[cmd.id := Effect(old(store.issues)[cmd.id], cmd, now)]
    ensures ok ==> store.activities == old(store.activities)[cmd.id := old(store.activities)[cmd.id] + [Entry(cmd, ActiveUser(email), now)]]
    ensures !ok ==> unchanged(store)
  {
    var actor := ActiveUser(email);
    match cmd
    case UpdateCmd(id, patch, message) =>
      ok := store.UpdateIssue(id, patch, actor, message, now);
    case StatusCmd(id, status) =>
      ok := store.UpdateIssueStatus(id, status, actor, now);
    case ArchiveCmd(id) =>
      ok := store.ArchiveIssue(id, actor, now);
    case UnarchiveCmd(id) =>
      ok := store.UnarchiveIssue(id, actor, now);
  }

  /**
   * handleCreateIssue: with a file, createIssueWithDocument (whose upload yields
   * `uploadedUrl`, None when it throws); without one, createIssue.
   */
  method HandleCreateIssue(store: IssueStore, values: IssueFormValues, file: Option<UploadFile>, email: Option<string>,
                           id: IssueId, now: Time, uploadedUrl: Option<string>)
    returns (ok: bool)
    requires store.Valid() && id !in store.issues && store.clock <= now
    modifies store
    ensures store.Valid()
    ensures store.counter == old(store.counter) + 1
    ensures ok <==> file.None? || uploadedUrl.Some?
    ensures id in store.issues && store.issues.Keys == old(store.issues).Keys + {id}
    ensures var created := NewIssue(values, store.counter, now);
      && (file.Some? && ok ==> store.issues == old(store.issues)[id := WithDocument(created, Document(file.value.name, uploadedUrl.value), now)])
      && (file.None? || !ok ==> store.issues == old(store.issues)[id := created])
    ensures store.activities == old(store.activities)[id := [Activity(ActiveUser(email), Comment, "Issue created", now)]]
  {
    var actor := ActiveUser(email);
    if file.Some? {
      var newId;
      newId, ok := store.CreateIssueWithDocument(values, file.value, actor, id, now, uploadedUrl);
    } else {
      var newId := store.CreateIssue(values, actor, id, now);
      ok := true;
    }
  }
}

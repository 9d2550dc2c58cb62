/**
 * The issue table (src/components/IssueTable.tsx): each control maps an edit to one call
 * of the dashboard's handlers, with a fixed activity message.
 */
module IssueTable {
  import opened Wrappers
  import opened IssueTypes
  import opened IssueOptions
  import opened IssueService
  import opened IssueMetrics
  import opened DashboardPage
  import opened OverviewCards
  import opened Notifications

  /** The status menu: every status is listed; picking the current one writes nothing. */
  function StatusMenuPick(row: Row, picked: Status): (r: Option<Command>)
    ensures r.None? <==> picked == row.issue.status
    ensures r.Some? ==> r.value == StatusCmd(row.id, picked)
  {
    StatusChange(row.id, row.issue.status, picked)
  }

  /** The menu offers the five statuses, and each of the four others becomes a status update. */
  lemma StatusMenuOffersEveryMove(row: Row, picked: Status)
    ensures picked in AllStatuses
    ensures picked != row.issue.status ==>
      StatusMenuPick(row, picked).Some? &&
      Effect(row.issue, StatusMenuPick(row, picked).value, 0).status == picked
  {
    OptionListsComplete();
  }

  /** `handleSaveIssueDetails`: only the description, under 'Issue details updated'. */
  function DetailsEdit(id: IssueId, description: string): Command {
    UpdateCmd(id, EmptyPatch.(description := Some(description)), Some("Issue details updated"))
  }

  /** `handleSaveExpectedResolution`: only the latest update, as typed, under 'Expected resolution updated'. */
  function LatestUpdateEdit(id: IssueId, expectedResolution: string): Command {
    UpdateCmd(id, EmptyPatch.(expectedResolution := Some(Some(expectedResolution))), Some("Expected resolution updated"))
  }

  /** The owner select as written: the chosen value, '' for Unassigned, under 'Assignee updated'. */
  function OwnerSelect(id: IssueId, value: string): Command {
    UpdateCmd(id, EmptyPatch.(assignee := Some(Some(value))), Some("Assignee updated"))
  }

  /** The owner select writing `null` for Unassigned, as the dialog and the drawer do. */
  function OwnerSelectCorrected(id: IssueId, value: string): Command {
    UpdateCmd(id, EmptyPatch.(assignee := Some(if value == "" then None else Some(value))), Some("Assignee updated"))
  }

  /** The archive icon archives the row's own issue. */
  function ArchiveAction(row: Row): (r: Command)
    ensures r.id == row.id
  {
    ArchiveCmd(row.id)
  }

  /** The select's displayed value: `params.value || ''`. */
  function ShownOwner(assignee: Option<string>): string {
    if Truthy(assignee) then assignee.value else ""
  }

  /** Each inline edit changes its one field and `updatedAt`, and logs its own message. */
  lemma InlineEditsTouchOneField(i: Issue, id: IssueId, text: string, actor: string, now: Time)
    ensures Effect(i, DetailsEdit(id, text), now) == i.(description := text, updatedAt := now)
    ensures Entry(DetailsEdit(id, text), actor, now).message == "Issue details updated"
    ensures Effect(i, LatestUpdateEdit(id, text), now) == i.(expectedResolution := Some(text), updatedAt := now)
    ensures Entry(LatestUpdateEdit(id, text), actor, now).message == "Expected resolution updated"
    ensures Effect(i, OwnerSelect(id, text), now) == i.(assignee := Some(text), updatedAt := now)
    ensures Entry(OwnerSelect(id, text), actor, now).message == "Assignee updated"
  {
  }

  /** The archive icon takes the row out of the default list and into the archived one. */
  lemma ArchiveActionArchives(row: Row, now: Time)
    ensures Effect(row.issue, ArchiveAction(row), now).isArchived
  {
  }

  /**
   * As written, choosing Unassigned stores '' rather than `null`: the table shows it like
   * an unassigned issue, yet the Active assignees card counts it neither as assigned nor as
   * unassigned, and the assignee-change trigger sees a change from `null` without mailing.
   */
  lemma UnassignedAsWrittenIsUncounted(i: Issue, id: IssueId, now: Time)
    ensures var j := Effect(i, OwnerSelect(id, ""), now);
      && j.assignee == Some("")
      && ShownOwner(j.assignee) == ShownOwner(None)
      && UnassignedCount([j]) == 0 && ActiveAssignees([j]) == 0
      && (i.assignee.None? ==> ToRaw(i).assignee != ToRaw(j).assignee && OnAssigneeChange(ToRaw(i), ToRaw(j)).None?)
  {
    var j := Effect(i, OwnerSelect(id, ""), now);
    assert Filter([j], IsUnassigned) == [] by {
      assert [j][..0] == [];
    }
    assert OwnerNames([j]) == {};
    ClearedAssigneeSendsNothing(ToRaw(i), ToRaw(j));
  }

  /**
   * Corrected, Unassigned stores `null` and is counted as unassigned; any other choice
   * writes exactly what the select as written does.
   */
  lemma UnassignedCorrectedIsCounted(i: Issue, id: IssueId, value: string, now: Time)
    ensures var j := Effect(i, OwnerSelectCorrected(id, ""), now);
      j.assignee.None? && UnassignedCount([j]) == 1 && ActiveAssignees([j]) == 0
    ensures value != "" ==> OwnerSelectCorrected(id, value) == OwnerSelect(id, value)
  {
    var j := Effect(i, OwnerSelectCorrected(id, ""), now);
    assert Filter([j], IsUnassigned) == [j] by {
      assert [j][..0] == [];
    }
    assert OwnerNames([j]) == {};
  }
}

# BiocliqAI issue tracker — a verified model of its rules

The issue tracker is a React single-page application over Firebase. Operations staff log
customer issues for the product lines (Urologiq, Corsight, Oneview, Infrastructure, Other).
They move issues through New, In Progress, Awaiting Customer, Resolved and Closed, archive
them, and attach documents. Two Cloud Functions mail the people concerned when an issue is
created and when its assignee changes.

This project states the system's exact rules in Dafny and proves properties of them:

- **Issue store** (`issue_service.dfy`). `IssueService.IssueStore` is a class holding:
  - the `issues` collection as a map from document id to issue;
  - the serial-number counter;
  - each issue's activity log;
  - a clock.

  `createIssue`, `createIssueWithDocument`, `updateIssue`, `updateIssueStatus`,
  `archiveIssue`, `unarchiveIssue`, `logActivity` and `addDocumentToIssue` are methods that
  change these fields. `logActivity` stamps its entry with the caller's clock (`Timestamp.now()`) and is the way
  the updating writers log. Every method preserves a store invariant:
  - serial numbers are 1..counter and distinct;
  - every stored issue has a log that opens with "Issue created";
  - timestamps never run ahead of the clock.

  The query built by `subscribeToIssues` is a predicate over the store:
  - the archived flag;
  - the category, status and priority lists, where an empty or full list means no filter;
  - an exact assignee match;
  - the serial-number order.

  Its client-side search is a function.
- **Filters** (`use_issues.dfy`, `dashboard_page.dfy`). These model:
  - `mergedFilters` of the `useIssues` hook;
  - the dashboard's `filtersReducer` and its initial filters;
  - the Show Archived switch;
  - the dashboard handlers (`DashboardPage.Perform`, `DashboardPage.HandleCreateIssue`), which pass the signed-in user, or `system@ops`, as the actor.
- **Aggregation** (`issue_metrics.dfy`, `overview_cards.dfy`, `insights_page.dfy`):
  - `groupByStatus`, `groupByCategory` and `getIssueSnapshot`;
  - the four overview cards;
  - the Insights page's category bars and status pie.
- **Notifications** (`notifications.dfy`, `issue_options.dfy`):
  - the assignable-user directory and `getUserEmail`;
  - the recipient list and subject of the creation mail;
  - the assignee-change test of the update trigger.

  The directory held by the functions and the one in the UI are proved to be entry-for-entry equal.
- **Forms and controls** (`new_issue_dialog.dfy`, `issue_details_drawer.dfy`, `issue_table.dfy`):
  - the new-issue dialog's defaults and submit normalisation;
  - the details drawer's prefill, trim-to-null save, Resolved/Closed toggle and upload sequencing;
  - the issue table's status menu, inline edits, owner select and archive button.
- **String helpers** (`text.dfy`, `admin_page.dfy`, `app_layout.dfy`, `login_page.dfy`):
  - JavaScript's `trim`, `split`, `join` and ASCII case mapping;
  - the Admin page's comma and newline lists and per-product owners;
  - the avatar initials and the navigation highlight;
  - the sign-in page's email and password rules, mode switch and submit outcome.

Timestamps are an abstract, non-decreasing `Time` passed in by the caller. Firestore ids
and upload URLs are supplied as parameters. An upload that fails is `None`.

## Model

| member | source | states |
|---|---|---|
| IssueOptions.OptionListsComplete | issue-tracker/src/constants/issueOptions.ts:3-9 | There are five distinct categories and five distinct statuses, in the order New, In Progress, Awaiting Customer, Resolved, Closed. There are four distinct priorities and three SLA options, and each list names every value of its type. |
| IssueOptions.AssignableUsersWellFormed | issue-tracker/src/constants/issueOptions.ts:11-29 | The directory has 17 entries, with pairwise distinct names and pairwise distinct emails, so name→email is a function. |
| IssueOptions.AssignableNamesDistinct | issue-tracker/src/constants/issueOptions.ts:11-29 | No two directory entries share a name. |
| IssueOptions.AssignableEmailsDistinct | issue-tracker/src/constants/issueOptions.ts:11-29 | No two directory entries share an email. |
| IssueService.NewIssue | issue-tracker/src/services/issueService.ts:104-112 | A created issue carries the given serial number and is not archived. Its createdAt equals its updatedAt. Description, category, status, priority, assignee, reporter, customer name, expected resolution and documents are stored as submitted. A missing SLA tag reads On Track, and missing tags read []. |
| IssueService.ApplyPatch | issue-tracker/src/services/issueService.ts:134-139 | An update keeps the serial number and createdAt and sets updatedAt to the time of the call. |
| IssueService.PatchChangesOnlySuppliedFields | issue-tracker/src/services/issueService.ts:134-139 | Every supplied field takes its new value, isArchived included, and every field that is not supplied keeps its old value. |
| IssueService.EmptyPatchOnlyTouches | issue-tracker/src/services/issueService.ts:134-139 | An update with no fields changes only updatedAt. |
| IssueService.PatchIdempotent | issue-tracker/src/services/issueService.ts:134-139 | Applying the same update twice gives the same issue as applying it once at the later time. |
| IssueService.ArchiveIdempotent | issue-tracker/src/services/issueService.ts:162-188 | Archive sets the flag to true and unarchive sets it to false, whatever it was before. Repeating either gives the same issue. |
| IssueService.ArrayUnion | issue-tracker/src/services/issueService.ts:234 | `arrayUnion` keeps the old list as a prefix and adds the element only when it is absent. The members of the result are the old ones plus the new one, and it never introduces a duplicate. |
| IssueService.ArrayUnionIdempotent | issue-tracker/src/services/issueService.ts:234 | Adding the same document twice gives the same list as adding it once. |
| IssueService.StatusActivity | issue-tracker/src/services/issueService.ts:155-159 | A status change logs 'closure' exactly when the new status is Closed, and 'status_update' otherwise. Its message is "Status changed to " followed by the status. |
| IssueService.ChronologicalOrdered | issue-tracker/src/services/issueService.ts:190-199 | An issue's activity log has non-decreasing timestamps that never run ahead of the clock. |
| IssueService.SerialsDistinct | issue-tracker/src/services/issueService.ts:99-114 | Under the store invariant, two different issues never share a serial number. |
| IssueService.CreateKeepsInvariant | issue-tracker/src/services/issueService.ts:99-123 | Creating with serial counter+1 and a single "Issue created" entry keeps the store invariant. The new serial is above every existing one. |
| IssueService.RewriteAndLogKeepInvariant | issue-tracker/src/services/issueService.ts:134-188 | Rewriting an issue in place (same serial and createdAt) and appending one entry keeps the store invariant. |
| IssueService.ClockAdvanceKeepsInvariant | issue-tracker/src/services/issueService.ts:190-199 | Moving the store's clock forward to the caller's `Timestamp.now()` keeps the store invariant. |
| IssueService.LogKeepsInvariant | issue-tracker/src/services/issueService.ts:190-199 | Appending an activity stamped with the current time keeps the store invariant. |
| IssueService.IssueStore.constructor | issue-tracker/src/services/issueService.ts:20-21 | A new store has no issues, no logs and a counter of 0. |
| IssueService.IssueStore.LogActivity | issue-tracker/src/services/issueService.ts:190-199 | On a store that keeps its invariant, appends one entry with the given action, actor and message, stamped with the caller's clock (`Timestamp.now()`), to that issue's log. The issues and the counter are unchanged, the clock moves to that time, and the invariant still holds. |
| IssueService.IssueStore.CreateIssue | issue-tracker/src/services/issueService.ts:95-126 | The counter goes up by one and the new issue takes it as its serial, above every earlier serial, so the serials run 1, 2, 3, …. The new issue is stored under the fresh id, no other issue changes, and its log is exactly one 'comment' "Issue created". |
| IssueService.IssueStore.CreateIssueWithDocument | issue-tracker/src/services/issueService.ts:128-132 | Creates the issue as above. When the upload returns a URL, it then adds {file name, URL} to the issue's documents. The issue is created even when the upload fails, and no extra activity is logged. |
| IssueService.IssueStore.UpdateIssue | issue-tracker/src/services/issueService.ts:134-146 | For an existing id, the supplied fields and updatedAt change and one 'comment' is appended with the given message or 'Issue updated'. For a missing id nothing changes. |
| IssueService.IssueStore.UpdateIssueStatus | issue-tracker/src/services/issueService.ts:148-160 | Sets any status from any status and appends the status activity (closure iff Closed). |
| IssueService.IssueStore.ArchiveIssue | issue-tracker/src/services/issueService.ts:162-174 | Sets isArchived to true and logs 'Issue archived'. |
| IssueService.IssueStore.UnarchiveIssue | issue-tracker/src/services/issueService.ts:176-188 | Sets isArchived to false and logs 'Issue unarchived'. |
| IssueService.IssueStore.AddDocumentToIssue | issue-tracker/src/services/issueService.ts:231-237 | Adds the document with set-union semantics and touches updatedAt. The logs stay exactly as they were. |
| IssueService.QueryResultUnique | issue-tracker/src/services/issueService.ts:29-54 | The matching issues, each once and ordered by serial number, form at most one list: two results of the same query on the same store are equal. |
| IssueService.QueryResultExists | issue-tracker/src/services/issueService.ts:29-54 | For a store whose serial numbers are distinct, every query has a result: the matching issues, each once, in serial order. |
| IssueService.StoreQueryResult | issue-tracker/src/services/issueService.ts:29-54 | On a store that keeps its invariant, every query has exactly one result. |
| IssueService.LengthTestIsMembership | issue-tracker/src/services/issueService.ts:38-48 | For lists without repeats, the "non-empty and shorter than the full list" test admits an issue iff the list is empty or contains the issue's value. |
| IssueService.FullListIsNoFilter | issue-tracker/src/services/issueService.ts:38-48 | A full category, status or priority list selects exactly what an empty one does. |
| IssueService.ArchivedPartition | issue-tracker/src/services/issueService.ts:31-36 | A matching issue is archived iff showArchived is set, so the archived and active views never share an issue. |
| IssueService.ArchiveRoundTrip | issue-tracker/src/services/issueService.ts:31-36 | Archiving then unarchiving an active issue restores its query membership. While archived, it matches only archived views. |
| IssueService.FilterHits | issue-tracker/src/services/issueService.ts:80-85 | The search keeps exactly the rows that hit, and never adds one. |
| IssueService.FilterHitsSorted | issue-tracker/src/services/issueService.ts:80-85 | Filtering by the search keeps the serial-number order. |
| IssueService.ApplySearch | issue-tracker/src/services/issueService.ts:80-85 | An empty or absent search returns the rows unchanged. Otherwise a row is kept iff its lower-cased description, customer name and assignee text contains the lower-cased search. |
| IssueService.ApplySearchSorted | issue-tracker/src/services/issueService.ts:80-85 | The searched result stays ordered by serial number. |
| IssueService.SubscriptionDelivers | issue-tracker/src/services/issueService.ts:29-87 | A subscriber gets, in serial order, exactly the stored issues that match every where-clause and, when the search is non-empty, the search. With no search, it gets every matching issue. |
| IssueService.SearchIgnoresCase | issue-tracker/src/services/issueService.ts:82-83 | The search gives the same answer for a term and its lower-cased form. |
| IssueService.ExactOccurrenceIsHit | issue-tracker/src/services/issueService.ts:82-83 | A term that occurs verbatim in the searched text is always a hit. |
| IssueService.SearchFindsCustomer | issue-tracker/src/services/issueService.ts:82-83 | Searching "acme" finds an issue whose customer is "Acme Corp". |
| UseIssues.MergedFilters | issue-tracker/src/hooks/useIssues.ts:17-32 | Absent category, status and priority lists become the full lists, and showOnlyOpen replaces the statuses with the three open ones. showArchived is set and defaults to false. Assignee, search and showOnlyOpen pass through, and no argument at all gives the defaults with showArchived false. |
| UseIssues.ShowOnlyOpenExcludesTerminal | issue-tracker/src/hooks/useIssues.ts:26-28 | With showOnlyOpen, no Resolved or Closed issue matches, whatever statuses the caller gave. |
| UseIssues.DefaultViewIsActiveIssues | issue-tracker/src/hooks/useIssues.ts:6-10 | With no filters, an issue matches iff it is not archived. |
| UseIssues.ArchivedViewIsArchivedIssues | issue-tracker/src/hooks/useIssues.ts:29 | With only showArchived set, an issue matches iff it is archived. |
| DashboardPage.FiltersReducerReplaces | issue-tracker/src/pages/DashboardPage.tsx:41-44 | Each patched field is replaced and every other field is kept. |
| DashboardPage.FiltersReducerAlgebra | issue-tracker/src/pages/DashboardPage.tsx:41-44 | An empty patch is the identity, the same patch twice equals once, and two patches in a row equal their merge. |
| DashboardPage.ShowArchivedSwitchOnlyFlag | issue-tracker/src/pages/DashboardPage.tsx:148 | The Show Archived switch changes only showArchived. |
| DashboardPage.DashboardViews | issue-tracker/src/pages/DashboardPage.tsx:34-39 | The initial filters list exactly the active issues, and with the switch on exactly the archived ones. |
| DashboardPage.ActiveUser | issue-tracker/src/pages/DashboardPage.tsx:60 | The actor is the signed-in email, or 'system@ops' without one. |
| DashboardPage.StatusChange | issue-tracker/src/components/IssueTable.tsx:323-325 | Picking the status already shown issues no write. Any other status issues exactly one status update. |
| DashboardPage.Effect | issue-tracker/src/pages/DashboardPage.tsx:73-93 | Every handler keeps the serial number and createdAt and stamps updatedAt. |
| DashboardPage.Entry | issue-tracker/src/pages/DashboardPage.tsx:73-93 | Every handler logs one activity by the active user, and it is a closure exactly for a move to Closed. |
| DashboardPage.Perform | issue-tracker/src/pages/DashboardPage.tsx:73-93 | Update, status, archive and unarchive reach the store as one write plus one log entry by the active user. For a missing id the store is unchanged. |
| DashboardPage.HandleCreateIssue | issue-tracker/src/pages/DashboardPage.tsx:62-71 | With a file, creation goes through createIssueWithDocument, and without one through createIssue. Either way the counter rises by one and the log holds "Issue created" by the active user. |
| IssueMetrics.Filter | issue-tracker/src/utils/issueMetrics.ts:33-37 | `filter` keeps exactly the issues passing the test and never lengthens the list. |
| IssueMetrics.FilterComplement | issue-tracker/src/utils/issueMetrics.ts:33-42 | A test and its negation split the list: the two filtered lengths sum to the whole. |
| IssueMetrics.StatusBucketsPartition | issue-tracker/src/utils/issueMetrics.ts:3-17 | The five status buckets' sizes sum to the number of issues. |
| IssueMetrics.GroupByStatus | issue-tracker/src/utils/issueMetrics.ts:3-17 | Every status has a bucket, even for no issues, and each bucket holds exactly the issues of that status in input order. |
| IssueMetrics.CategoryOrder | issue-tracker/src/utils/issueMetrics.ts:19-27 | Each category is listed at most once, in order of first occurrence. |
| IssueMetrics.CategoryOrderMembers | issue-tracker/src/utils/issueMetrics.ts:19-27 | A category gets a key iff some issue has it. |
| IssueMetrics.CategoryGroupsUnique | issue-tracker/src/utils/issueMetrics.ts:19-27 | The grouping is determined by its keys and buckets. |
| IssueMetrics.GroupByCategory | issue-tracker/src/utils/issueMetrics.ts:19-27 | Keys appear only for categories that occur, in order of first occurrence. Each bucket is non-empty and holds exactly that category's issues in input order. |
| IssueMetrics.SnapshotCounts | issue-tracker/src/utils/issueMetrics.ts:29-51 | open + closed = total, critical ≤ open, and breached + atRisk ≤ open. closed counts the Closed issues. |
| IssueMetrics.GetIssueSnapshot | issue-tracker/src/utils/issueMetrics.ts:29-51 | total is the number of issues, and open + closed = total. Critical and the SLA counts are bounded by open, and the snapshot has all five status buckets. |
| OverviewCards.OwnerGroupsPartition | issue-tracker/src/components/OverviewCards.tsx:42-43 | Every issue has a non-empty assignee, a null assignee or an empty-string assignee, and exactly one of the three. |
| OverviewCards.ActiveAssigneesBounds | issue-tracker/src/components/OverviewCards.tsx:42 | The distinct-assignee count is at most the number of assigned issues, and it is 0 iff none is assigned. |
| OverviewCards.ActiveAssigneesAtMostDirectory | issue-tracker/src/components/OverviewCards.tsx:42 | When every assignee comes from the directory, at most 17 active assignees are shown. |
| OverviewCards.CardsConsistent | issue-tracker/src/components/OverviewCards.tsx:18-47 | Open plus closed equals the total shown under the open card. Critical and the SLA figures are parts of open, and active assignees plus unassigned never exceed the number of issues. |
| InsightsPage.CategoryDataRows | issue-tracker/src/pages/InsightsPage.tsx:11-19 | In each category row, open + closed is the number of issues in that category, and closed counts its Closed issues. |
| InsightsPage.CategoryDataCovers | issue-tracker/src/pages/InsightsPage.tsx:11-19 | A category has a row iff at least one issue has it. |
| InsightsPage.CategoryDataTotal | issue-tracker/src/pages/InsightsPage.tsx:11-19 | The rows' open and closed figures sum to the number of issues. |
| InsightsPage.StatusDataShape | issue-tracker/src/pages/InsightsPage.tsx:21-28 | The pie has exactly five entries, one per status in list order, each with its bucket's size. |
| InsightsPage.StatusDataTotal | issue-tracker/src/pages/InsightsPage.tsx:21-28 | The pie's values sum to the number of issues. |
| InsightsPage.InsightsSeesActiveIssues | issue-tracker/src/pages/InsightsPage.tsx:8 | Without filters, the page sees every active issue and no archived one, and no search is applied. |
| Notifications.DirectoriesAgree | issue-tracker/functions/index.js:12-30 | The functions' directory equals the UI's entry for entry and is well formed. |
| Notifications.FindEmail | issue-tracker/functions/index.js:33-36 | Returns the email of the first entry whose name equals the argument exactly, or null when no name matches. |
| Notifications.GetUserEmail | issue-tracker/functions/index.js:33-36 | A string name is looked up. A null or missing name gives null. |
| Notifications.FindEmailExact | issue-tracker/functions/index.js:33-36 | In a well-formed directory, a name resolves to an email iff that pair is an entry. |
| Notifications.DirectoryNamesResolve | issue-tracker/functions/index.js:33-36 | Every name selectable in the UI resolves to its own email, and the empty name resolves to nothing. |
| Notifications.CreationSubject | issue-tracker/functions/index.js:65 | The subject is "New Issue Created: ", then the description's first 50 characters (all of it when shorter), then "...". |
| Notifications.ChangeSubject | issue-tracker/functions/index.js:135 | The subject is "Issue Assignment Changed: ", then the description's first 50 characters (all of it when shorter), then "...". |
| Notifications.CollectRecipients | issue-tracker/functions/index.js:78-84 | At most two distinct addresses. The list is empty exactly when neither email is present and non-empty. An address is in it exactly when it is a non-empty assignee or reporter email. The assignee comes first. |
| Notifications.OnIssueCreated | issue-tracker/functions/index.js:52-98 | A missing snapshot sends nothing. Otherwise the recipients are the assignee's email if it resolves, then the reporter's if it resolves and differs: one or two distinct addresses, with the assignee first. Nothing is sent when neither resolves. |
| Notifications.OnAssigneeChange | issue-tracker/functions/index.js:125-153 | A mail is sent iff the assignee changed under strict inequality and the new one resolves. It goes to that email alone. |
| Notifications.OnlyAssigneeMatters | issue-tracker/functions/index.js:125-158 | The decision depends only on the two assignee fields, and an unchanged assignee sends nothing. |
| Notifications.StatusChangeSendsNothing | issue-tracker/functions/index.js:126 | A status change that leaves the assignee alone sends no mail. |
| Notifications.ClearedAssigneeSendsNothing | issue-tracker/functions/index.js:128-131 | Clearing the assignee to null or to '' sends no mail. |
| Notifications.ReassignmentExample | issue-tracker/functions/index.js:126-135 | Reassigning between two directory names mails the new assignee only. |
| NewIssueDialog.BlankToNull | issue-tracker/src/components/NewIssueDialog.tsx:38-39 | An empty value becomes null, and any other value passes unchanged and untrimmed. |
| NewIssueDialog.SubmittedNormalises | issue-tracker/src/components/NewIssueDialog.tsx:34-41 | Empty assignee and expected resolution become null, and other values pass untrimmed. Tags keep exactly the non-empty entries, with [] when missing. Description and reporter pass through. |
| NewIssueDialog.DialogNeverStoresBlankAssignee | issue-tracker/src/components/NewIssueDialog.tsx:38-39 | An issue created from the dialog never has '' as assignee or expected resolution. |
| NewIssueDialog.DefaultFormIsIncomplete | issue-tracker/src/components/NewIssueDialog.tsx:21-31 | The default form cannot be submitted (description and reporter are required). It would submit a null assignee and empty tags. |
| NewIssueDialog.NewIssueDialog.constructor | issue-tracker/src/components/NewIssueDialog.tsx:20-32 | The dialog opens on the default values with no file. |
| NewIssueDialog.NewIssueDialog.PickFile | issue-tracker/src/components/NewIssueDialog.tsx:131 | The chosen file replaces the selection. |
| NewIssueDialog.NewIssueDialog.Submit | issue-tracker/src/components/NewIssueDialog.tsx:34-47 | Without both required fields nothing happens. Otherwise the normalised values are created, with the selected file if any. Reset, file clear and close happen only once creation resolves. |
| IssueDetailsDrawer.PrefillForm | issue-tracker/src/components/IssueDetailsDrawer.tsx:30-37 | A null assignee and a null expected resolution are shown as '', and a missing priority as Medium. |
| IssueDetailsDrawer.TrimToNull | issue-tracker/src/components/IssueDetailsDrawer.tsx:51-52 | A blank or whitespace-only value becomes null. Any other value is trimmed, non-empty and has no outer whitespace. |
| IssueDetailsDrawer.SaveNormalises | issue-tracker/src/components/IssueDetailsDrawer.tsx:44-58 | Save writes only the normalised assignee and expected resolution and the chosen priority, under 'Issue ownership updated'. |
| IssueDetailsDrawer.SaveUneditedIsNoChange | issue-tracker/src/components/IssueDetailsDrawer.tsx:30-58 | Saving the prefilled form of an already normalised issue changes only updatedAt. |
| IssueDetailsDrawer.SaveClearsBlankAssignee | issue-tracker/src/components/IssueDetailsDrawer.tsx:51 | A whitespace-only assignee is saved as null. |
| IssueDetailsDrawer.ToggleTarget | issue-tracker/src/components/IssueDetailsDrawer.tsx:156 | The button targets Closed iff the status is Resolved, and Resolved otherwise. |
| IssueDetailsDrawer.ToggleAlwaysWrites | issue-tracker/src/components/IssueDetailsDrawer.tsx:156-158 | The toggle always differs from the current status, so it always writes. Closed goes back to Resolved. |
| IssueDetailsDrawer.UnarchiveReturnsToDefaultView | issue-tracker/src/components/IssueDetailsDrawer.tsx:160-168 | Unarchive is offered only for an archived issue, which the default view excludes and which returns to it once unarchived. |
| IssueDetailsDrawer.IssueDetailsDrawer.constructor | issue-tracker/src/components/IssueDetailsDrawer.tsx:30-38 | The drawer opens on the prefilled form with no flags raised and no file. |
| IssueDetailsDrawer.IssueDetailsDrawer.HandleUpdate | issue-tracker/src/components/IssueDetailsDrawer.tsx:44-59 | Writes the normalised form with 'Issue ownership updated' by the active user, and saving ends false. |
| IssueDetailsDrawer.IssueDetailsDrawer.HandleStatusChange | issue-tracker/src/components/IssueDetailsDrawer.tsx:61-69 | The current status writes nothing and raises no flag. Any other status is written with its status activity, and statusSaving ends false. |
| IssueDetailsDrawer.IssueDetailsDrawer.PickFile | issue-tracker/src/components/IssueDetailsDrawer.tsx:187 | The chosen file replaces the selection. |
| IssueDetailsDrawer.IssueDetailsDrawer.HandleFileUpload | issue-tracker/src/components/IssueDetailsDrawer.tsx:71-81 | Without a file nothing happens. Otherwise {file name, URL} is added only after the upload returns, the selection is cleared only on success, and uploading ends false. No activity is logged. |
| IssueTable.StatusMenuPick | issue-tracker/src/components/IssueTable.tsx:317-326 | Picking the current status issues no write. Any other pick issues exactly one status update for the row. |
| IssueTable.StatusMenuOffersEveryMove | issue-tracker/src/components/IssueTable.tsx:317-330 | Every status is offered, and each one other than the current status sets exactly that status. |
| IssueTable.InlineEditsTouchOneField | issue-tracker/src/components/IssueTable.tsx:55-61 | The description edit, the latest-update edit and the owner select each change their one field plus updatedAt. They log 'Issue details updated', 'Expected resolution updated' and 'Assignee updated' respectively. |
| IssueTable.ArchiveAction | issue-tracker/src/components/IssueTable.tsx:240 | The archive button targets the row's own id. |
| IssueTable.ArchiveActionArchives | issue-tracker/src/components/IssueTable.tsx:240 | After the archive button, the row's issue is archived. |
| IssueTable.UnassignedAsWrittenIsUncounted | issue-tracker/src/components/IssueTable.tsx:151-160 | As written, Unassigned stores '' and the table shows it like null. The Active assignees card counts it neither as assigned nor as unassigned, and the trigger sees a change from null yet mails nobody. |
| IssueTable.UnassignedCorrectedIsCounted | issue-tracker/src/components/IssueTable.tsx:151-160 | Writing null for Unassigned makes the issue count as unassigned. Every other choice writes exactly what the select as written does. |
| AdminPage.DefaultRoutingSettingsBlank | issue-tracker/src/types/settings.ts:9-19 | The default settings give every product an empty owner and have no escalation contacts and no watchers. |
| AdminPage.ParseList | issue-tracker/src/pages/AdminPage.tsx:84-89 | Parsed entries are never empty, never have outer whitespace and never contain the separator. |
| AdminPage.ListRoundTrip | issue-tracker/src/pages/AdminPage.tsx:84-89 | Joining well-formed entries with the separator plus any whitespace padding, then parsing, gives the entries back. |
| AdminPage.EscalationRoundTrip | issue-tracker/src/pages/AdminPage.tsx:81-89 | Parsing the ", "-joined escalation list gives the list back when its entries are non-empty, trimmed and comma-free. |
| AdminPage.WatchersRoundTrip | issue-tracker/src/pages/AdminPage.tsx:103-111 | Parsing the newline-joined watchers gives the list back when its entries are non-empty, trimmed and newline-free. |
| AdminPage.ParseSettles | issue-tracker/src/pages/AdminPage.tsx:81-89 | Re-parsing the text shown for a parsed list gives the same list, for both fields. |
| AdminPage.SetOwnerOnlyThatProduct | issue-tracker/src/pages/AdminPage.tsx:63-68 | Editing one product's owner replaces only that key, leaving the other owners and both lists unchanged. |
| AdminPage.ListEditsAreSeparate | issue-tracker/src/pages/AdminPage.tsx:84-111 | Typing in one list field changes only that list. |
| AdminPage.ParseIgnoresTrailingSep | issue-tracker/src/pages/AdminPage.tsx:84-89 | A trailing separator adds nothing to the parsed list. |
| AdminPage.TypedSeparatorVanishes | issue-tracker/src/pages/AdminPage.tsx:81-89 | As written, typing ',' (or a newline) after the shown list leaves the settings, and so the shown text, exactly as before. |
| AdminPage.TypingSecondContactAsWritten | issue-tracker/src/pages/AdminPage.tsx:81-89 | As written, for any two well-formed contacts x and y, starting from [x]: typing ',' leaves the settings unchanged, and typing y next gives the single contact [x + y], not [x, y]. |
| AdminPage.DraftKeepsTypedText | issue-tracker/src/pages/AdminPage.tsx:81-89 | With a draft field, the field shows what was typed while the settings take its parse. Each edit replaces the previous one. |
| AdminPage.ParseTwoEntries | issue-tracker/src/pages/AdminPage.tsx:84-89 | Two well-formed entries around one separator parse to those two entries. |
| AdminPage.TypingSecondContactCorrected | issue-tracker/src/pages/AdminPage.tsx:81-89 | With the draft field, for any two well-formed contacts x and y, starting from [x]: typing ',' keeps the text "x," in the field, and typing y next gives the two contacts [x, y]. |
| AppLayout.LocalPart | issue-tracker/src/layouts/AppLayout.tsx:43 | The part used is the prefix before the first '@', and it contains no '@'. |
| AppLayout.FirstLetters | issue-tracker/src/layouts/AppLayout.tsx:47-48 | One upper-cased first letter per segment, in order. |
| AppLayout.Segments | issue-tracker/src/layouts/AppLayout.tsx:44-46 | The segments are the maximal runs without '.', '_' or '-' of the text before '@', in order. Together they spell that text with the separators taken out. Each is non-empty and contains no '@'. |
| AppLayout.SplitWhereIsRuns | issue-tracker/src/layouts/AppLayout.tsx:44-46 | Splitting at '.', '_' and '-' and dropping the empty pieces gives the maximal runs between separators, read left to right. |
| AppLayout.RunsConcat | issue-tracker/src/layouts/AppLayout.tsx:44-46 | The runs, put back together in order, are the text with its separators removed. |
| AppLayout.GetInitials | issue-tracker/src/layouts/AppLayout.tsx:41-50 | Without an email the result is 'U'. Otherwise it is at most two characters: the upper-cased first letters of the first two segments. |
| AppLayout.AvatarText | issue-tracker/src/layouts/AppLayout.tsx:121 | The avatar always shows one or two characters, and 'U' when there are no initials. |
| AppLayout.InitialsUpperCase | issue-tracker/src/layouts/AppLayout.tsx:47 | No initial is an ASCII lower-case letter. |
| AppLayout.InitialsIgnoreDomain | issue-tracker/src/layouts/AppLayout.tsx:43 | The domain never changes the initials. |
| AppLayout.TwoPartName | issue-tracker/src/layouts/AppLayout.tsx:41-50 | first.last@domain gives the two upper-cased first letters. |
| AppLayout.InitialsExample | issue-tracker/src/layouts/AppLayout.tsx:41-50 | n.ravi@biocliq.com shows NR. |
| AppLayout.EmptyLocalPartShowsU | issue-tracker/src/layouts/AppLayout.tsx:121 | An email starting with '@' has empty initials, and the avatar shows 'U'. |
| AppLayout.NavSelection | issue-tracker/src/layouts/AppLayout.tsx:92 | No path highlights two of the four entries, and each entry is highlighted on its own path and every path below it. '/' highlights none. |
| LoginPage.PatternIsShortMatch | issue-tracker/src/pages/LoginPage.tsx:59 | The pattern matches iff the text contains an allowed character, '@', a run of allowed characters, '.', and an allowed character. |
| LoginPage.PatternUnanchored | issue-tracker/src/pages/LoginPage.tsx:59 | Any text around a passing email, spaces and extra '@'s included, still passes. |
| LoginPage.PatternNeedsAtAndDot | issue-tracker/src/pages/LoginPage.tsx:59 | Text without an '@', or without a '.', never passes. |
| LoginPage.EmailError | issue-tracker/src/pages/LoginPage.tsx:56-62 | An email is accepted iff it is non-empty and the pattern matches. Otherwise the error is 'Email is required' or 'Enter a valid email'. |
| LoginPage.PasswordError | issue-tracker/src/pages/LoginPage.tsx:70-73 | A password is accepted iff it has at least 6 characters. Otherwise the error is 'Password is required' or 'Minimum 6 characters'. |
| LoginPage.EmailExamples | issue-tracker/src/pages/LoginPage.tsx:56-62 | ops@biocliq.com passes and ops@biocliq does not. Text around a valid address is not rejected. |
| LoginPage.Toggle | issue-tracker/src/pages/LoginPage.tsx:90 | The link always switches to the other mode. |
| LoginPage.ToggleTwiceIsIdentity | issue-tracker/src/pages/LoginPage.tsx:90 | Switching twice returns to the first mode. |
| LoginPage.FailureMessage | issue-tracker/src/pages/LoginPage.tsx:41 | An Error shows its own message, and anything else 'Authentication failed'. |
| LoginPage.CallFor | issue-tracker/src/pages/LoginPage.tsx:34-38 | Login mode signs in, register mode registers, with the typed email and password. |
| LoginPage.LoginPage.constructor | issue-tracker/src/pages/LoginPage.tsx:21-28 | The page starts in login mode, not loading, with no error. |
| LoginPage.LoginPage.ToggleMode | issue-tracker/src/pages/LoginPage.tsx:90 | The mode switches. |
| LoginPage.LoginPage.Submit | issue-tracker/src/pages/LoginPage.tsx:30-45 | A submission happens iff both fields are valid, making one auth call for the mode. Success navigates to /dashboard, and failure shows the failure message and stays. loading ends false either way. |
| Text.TrimIsTrimmed | issue-tracker/src/pages/AdminPage.tsx:87 | `trim` leaves no outer whitespace, never lengthens, and is empty iff the text is all whitespace. |
| Text.JoinSplit | issue-tracker/src/pages/AdminPage.tsx:86 | Joining the pieces of a split with the same separator gives the text back. |

## Left out

- Firestore and Cloud Storage calls are replaced by the in-memory `IssueStore`. The counter transaction is one atomic method, and no concurrency, retries or network failures are modelled. The only exception is an upload that returns no URL.
- IssueService.IssueStore.UpdateIssue and the other writers: `updateDoc` on a missing document throws, and no activity is logged. The model returns `false` and leaves the store unchanged.
- IssueService.IssueStore.LogActivity requires the issue to exist. Firestore's `addDoc` would also create a log under a missing issue document, which the store invariant excludes. Every caller in issueService.ts logs only after a write to that issue has succeeded.
- IssueService.IssueStore.CreateIssue writes the issue and its "Issue created" entry in one step. The source writes the entry through `logActivity` after the counter transaction, so there the issue is briefly stored without its log.
- `IssueFormValues` and `IssuePatch` have no `serialNumber` field. In the source the form values are the issue without its id and timestamps, so they carry a serial number. `createIssue` overwrites it with the counter. `Partial<IssueFormValues>` lets `updateDoc` write one, but no caller in the modelled code passes it.
- Timestamps: `Timestamp.now()` reads the calling user's clock, not the server's. The model takes it as a `Time` supplied by the caller and assumes one clock that never goes back (`clock <= now`). Different users' clocks need not agree, so a user whose clock runs behind can append an entry older than the one before it. The chronological order of a log (IssueService.ChronologicalOrdered and the store invariant) therefore holds in the model, not in the program. The ISO conversion when reading and the locale formatting are not modelled.
- IssueService.IssueStore.Rewrite, UpdateIssue, UpdateIssueStatus, SetArchived and CreateIssueWithDocument stamp `updatedAt`, the log entry and the attached document's `updatedAt` with one `now`. The source reads `Timestamp.now()` separately for each write (issueService.ts lines 138, 152, 166, 180, 197 and 235), so there `updatedAt` and the entry's timestamp can differ slightly.
- The activity feed's `timestamp desc` ordering is database query ordering. The model keeps each log in insertion order and proves it chronological.
- Legacy documents that lack `isArchived`, `priority` or `slaBreachRisk` read back through `??` defaults. The model's issues always carry these fields. The drawer's "missing priority → Medium" prefill is modelled on its own, in `IssueDetailsDrawer.PrefillForm`.
- Mail transport (nodemailer, SMTP settings), the HTML bodies, the issue links and the `console` logging are not modelled. A send failure is caught, and both handlers return null either way, so the model returns only the mail that would be sent.
- The floating-point completion percentage on the Closed card, and the Insights page's progress values and portfolio panel, are not modelled. The panel's figures are the snapshot's numbers, which `IssueMetrics.GetIssueSnapshot` covers.
- The subscription plumbing is not modelled: `useIssueActivities`, `useRoutingSettings`, the `settingsService`, `AuthContext`, `ProtectedRoute` and `App` routing, and the loading and error state of `useIssues`.
- Pure presentation is not modelled: the theme, `AuthLayout`, the edit popovers (which hand one field to the table's save handlers), `IssueFilters` (its debounce is timing), `IssueKanban` (the same partition as `groupByStatus`) and `IssueBoardPage` (its open filter is `showOnlyOpen`).
- `processRowUpdate` in the issue table returns the new row unchanged. It is the identity and has no member.
- AdminPage `handleSave` sends the whole local settings record to the settings service, which is not part of this model, and its `saving` flag is not modelled. The per-product owner edit and both list fields are modelled.
- Case mapping (`toLowerCase`, `toUpperCase`) is modelled over ASCII only. `trim` is exact: its whitespace class is the full ECMAScript WhiteSpace and LineTerminator set.
- LoginPage.PasswordError, AppLayout.GetInitials, Notifications.CreationSubject and Notifications.ChangeSubject count Dafny characters where JavaScript counts UTF-16 code units, so they differ for characters outside the Basic Multilingual Plane.
- LoginPage.LoginPage.Submit: an `Error` whose message is empty leaves no visible error text. The model records the empty message, and whether it is shown is presentation.
- The effects that reset the drawer and the dialog when their issue or open state changes are React scheduling. The model prefills in the constructors.
- The store does not state that the number of issues equals the counter. Documents created outside `createIssue` are not part of the model.

## Findings

| source | as written | input that shows it | evidently intended | confidence | as-written member | corrected member |
|---|---|---|---|---|---|---|
| issue-tracker/src/components/IssueTable.tsx:151-160 | Choosing "Unassigned" in the owner select sends `{assignee: ''}`, while the new-issue dialog and the details drawer store `null` for no assignee. | Set any issue's owner to Unassigned in the table. Its assignee becomes '', and the Active assignees card counts it neither as assigned nor as unassigned (OverviewCards.tsx:42-43). | Unassigned should store `null`, so the issue is counted as unassigned. | not executed | IssueTable.UnassignedAsWrittenIsUncounted | IssueTable.UnassignedCorrectedIsCounted |
| issue-tracker/src/pages/AdminPage.tsx:81-89 | The escalation field shows `join(', ')` of the parsed list and re-parses it on every keystroke, so a typed separator is dropped at once. The watchers field (103-111) does the same with newlines. | With contacts ["a"], type ',' then 'b': the field goes back to "a" after the comma and ends as "ab", a single contact ["ab"]. | The field should keep the typed text and parse it into the list, so that typing "a,b" gives ["a", "b"]. | not executed | AdminPage.TypingSecondContactAsWritten | AdminPage.TypingSecondContactCorrected |

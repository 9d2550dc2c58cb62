/**
 * The issue details drawer (src/components/IssueDetailsDrawer.tsx): the ownership form
 * prefilled from the issue and normalised on save, the resolve/close button, the
 * unarchive button and the document upload, each with its busy flag.
 */
module IssueDetailsDrawer {
  import opened Wrappers
  import opened Text
  import opened IssueTypes
  import opened IssueService
  import opened UseIssues
  import opened DashboardPage

  /** The drawer's form: assignee, priority and latest update. */
  datatype DrawerForm = DrawerForm(assignee: string, priority: Priority, expectedResolution: string)

  /** The `reset` call of the prefill effect: `?? ''` for the texts, `?? 'Medium'` for the priority. */
  function PrefillForm(assignee: Option<string>, priority: Option<Priority>, expectedResolution: Option<string>): (r: DrawerForm)
    ensures assignee.None? ==> r.assignee == ""
    ensures priority.None? ==> r.priority == Medium
    ensures expectedResolution.None? ==> r.expectedResolution == ""
  {
    DrawerForm(assignee.GetOr(""), priority.GetOr(Medium), expectedResolution.GetOr(""))
  }

  function Prefill(i: Issue): DrawerForm {
    PrefillForm(i.assignee, Some(i.priority), i.expectedResolution)
  }

  /** `value?.trim() || null`: the trimmed text, or `null` when nothing but whitespace is left. */
  function TrimToNull(s: string): (r: Option<string>)
    ensures r.None? <==> AllWhitespace(s)
    ensures r.Some? ==> r.value == Trim(s) && r.value != "" && IsTrimmed(r.value)
  {
    TrimIsTrimmed(s);
    if Trim(s) == "" then None else Some(Trim(s))
  }

  /** What `handleUpdate` sends: the three fields, the two texts trimmed and blanks as `null`. */
  function SaveCommand(id: IssueId, form: DrawerForm): Command {
    UpdateCmd(id, EmptyPatch.(assignee := Some(TrimToNull(form.assignee)),
                              priority := Some(form.priority),
                              expectedResolution := Some(TrimToNull(form.expectedResolution))),
              Some("Issue ownership updated"))
  }

  /** A stored text the drawer would write back as it is: absent, or trimmed and non-empty. */
  predicate Normalised(s: Option<string>) {
    s.None? || (s.value != "" && IsTrimmed(s.value))
  }

  /** Saving writes only normalised texts and the chosen priority, under the fixed message. */
  lemma SaveNormalises(i: Issue, id: IssueId, form: DrawerForm, now: Time, actor: string)
    ensures var r := Effect(i, SaveCommand(id, form), now);
      && Normalised(r.assignee) && Normalised(r.expectedResolution)
      && r.priority == form.priority
      && r == i.(assignee := r.assignee, priority := form.priority,
                 expectedResolution := r.expectedResolution, updatedAt := now)
    ensures Entry(SaveCommand(id, form), actor, now) == Activity(actor, Comment, "Issue ownership updated", now)
  {
  }

  /** Prefilling and saving without edits writes back what was stored, when it was already normalised. */
  lemma SaveUneditedIsNoChange(i: Issue, id: IssueId, now: Time)
    requires Normalised(i.assignee) && Normalised(i.expectedResolution)
    ensures Effect(i, SaveCommand(id, Prefill(i)), now) == i.(updatedAt := now)
  {
    if i.assignee.Some? {
      TrimTrimmed(i.assignee.value);
      TrimIsTrimmed(i.assignee.value);
    }
    if i.expectedResolution.Some? {
      TrimTrimmed(i.expectedResolution.value);
      TrimIsTrimmed(i.expectedResolution.value);
    }
  }

  /** A blank assignee (as the table's owner select stores it) becomes `null` when the drawer saves. */
  lemma SaveClearsBlankAssignee(i: Issue, id: IssueId, now: Time)
    requires i.assignee.Some? && AllWhitespace(i.assignee.value)
    ensures Effect(i, SaveCommand(id, Prefill(i)), now).assignee.None?
  {
  }

  /** The status button's target: Closed from Resolved, Resolved from anything else (Closed included). */
  function ToggleTarget(s: Status): (r: Status)
    ensures r == Closed <==> s == Resolved
    ensures r == Resolved <==> s != Resolved
  {
    if s == Resolved then Closed else Resolved
  }

  /** The button never targets the current status, so its clicks always reach the store; a closed issue reopens as Resolved. */
  lemma ToggleAlwaysWrites(id: IssueId, s: Status)
    ensures StatusChange(id, s, ToggleTarget(s)) == Some(StatusCmd(id, ToggleTarget(s)))
    ensures ToggleTarget(ToggleTarget(Resolved)) == Resolved
    ensures ToggleTarget(Closed) == Resolved
  {
  }

  /** The Unarchive button is shown only for an archived issue. */
  predicate UnarchiveOffered(i: Issue) {
    i.isArchived
  }

  /** Unarchiving from the drawer brings the issue back into the default issue list. */
  lemma UnarchiveReturnsToDefaultView(i: Issue, id: IssueId, now: Time)
    requires UnarchiveOffered(i)
    ensures MatchesQuery(Effect(i, UnarchiveCmd(id), now), Merged(None))
    ensures !MatchesQuery(i, Merged(None))
  {
    DefaultViewIsActiveIssues(i);
    DefaultViewIsActiveIssues(Effect(i, UnarchiveCmd(id), now));
  }

  class IssueDetailsDrawer {
    var form: DrawerForm
    var saving: bool
    var statusSaving: bool
    var uploading: bool
    var selectedFile: Option<UploadFile>

    /** The drawer opened on an issue: the prefill effect has run, nothing is busy. */
    constructor (i: Issue)
      ensures form == Prefill(i) && !saving && !statusSaving && !uploading && selectedFile.None?
    {
      form := Prefill(i);
      saving := false;
      statusSaving := false;
      uploading := false;
      selectedFile := None;
    }

    /** `handleUpdate`: `saving` is raised around the update call and lowered whatever it does. */
    method HandleUpdate(store: IssueStore, id: IssueId, email: Option<string>, now: Time) returns (ok: bool)
      requires store.Valid() && store.clock <= now
      modifies this`saving, store
      ensures store.Valid() && !saving
      ensures ok == (id in old(store.issues))
      ensures ok ==> store.issues == old(store.issues)[id := Effect(old(store.issues)[id], SaveCommand(id, form), now)]
      ensures ok ==> store.activities == old(store.activities)[id := old(store.activities)[id] +
                [Activity(ActiveUser(email), Comment, "Issue ownership updated", now)]]
      ensures !ok ==> unchanged(store)
    {
      saving := true;
      ok := Perform(store, SaveCommand(id, form), email, now);
      saving := false;
    }

    /** `handleStatusChange`: no write when the target is the shown status; otherwise `statusSaving` around the call. */
    method HandleStatusChange(store: IssueStore, id: IssueId, shown: Status, target: Status, email: Option<string>, now: Time)
      returns (wrote: bool)
      requires store.Valid() && store.clock <= now
      modifies this`statusSaving, store
      ensures store.Valid()
      ensures target == shown ==> statusSaving == old(statusSaving)
      ensures target != shown ==> !statusSaving
      ensures !wrote ==> unchanged(store)
      ensures wrote == (target != shown && id in old(store.issues))
      ensures wrote ==> store.issues == old(store.issues)[id := WithStatus(old(store.issues)[id], target, now)]
      ensures wrote ==> store.activities == old(store.activities)[id := old(store.activities)[id] + [StatusActivity(target, ActiveUser(email), now)]]
    {
      var cmd := StatusChange(id, shown, target);
      if cmd.None? {
        return false;
      }
      statusSaving := true;
      wrote := Perform(store, cmd.value, email, now);
      statusSaving := false;
    }

    method PickFile(file: Option<UploadFile>)
      modifies this`selectedFile
      ensures selectedFile == file
    {
      selectedFile := file;
    }

    /**
     * `handleFileUpload`: nothing without a selected file. Otherwise `uploading` is raised,
     * the file uploaded (`uploadedUrl` None when that throws), then the document
     * {file name, URL} added; the selection is cleared only when both succeed.
     */
    method HandleFileUpload(store: IssueStore, id: IssueId, now: Time, uploadedUrl: Option<string>) returns (ok: bool)
      requires store.Valid() && store.clock <= now
      modifies this`uploading, this`selectedFile, store
      ensures store.Valid()
      ensures old(selectedFile).Some? ==> !uploading
      ensures old(selectedFile).None? ==> uploading == old(uploading) && unchanged(store)
      ensures ok <==> old(selectedFile).Some? && uploadedUrl.Some? && id in old(store.issues)
      ensures ok ==> store.issues == old(store.issues)[id := WithDocument(old(store.issues)[id], Document(old(selectedFile).value.name, uploadedUrl.value), now)]
      ensures ok ==> selectedFile.None?
      ensures !ok ==> selectedFile == old(selectedFile) && store.issues == old(store.issues)
      ensures store.activities == old(store.activities) && store.counter == old(store.counter)
    {
      if selectedFile.None? {
        return false;
      }
      uploading := true;
      if uploadedUrl.None? {
        uploading := false;
        return false;
      }
      ok := store.AddDocumentToIssue(id, Document(selectedFile.value.name, uploadedUrl.value), now);
      if ok {
        selectedFile := None;
      }
      uploading := false;
    }
  }
}

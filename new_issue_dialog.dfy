/**
 * The new issue dialog (src/components/NewIssueDialog.tsx): the form's defaults, the
 * normalisation applied on submit, and what happens to the form after the creation
 * handler returns or throws.
 */
module NewIssueDialog {
  import opened Wrappers
  import opened Text
  import opened IssueTypes
  import opened IssueService
  import opened DashboardPage

  /** The form's fields as the inputs hold them: text fields are strings, '' when left blank. */
  datatype DialogForm = DialogForm(
    description: string,
    category: Category,
    status: Status,
    priority: Priority,
    assignee: string,
    reporter: string,
    customerName: string,
    expectedResolution: string,
    tags: Option<seq<string>>)

  /** `defaultValues`: blank text, Urologiq, New, Medium, no tags. */
  const DefaultForm: DialogForm := DialogForm("", Urologiq, New, Medium, "", "", "", "", Some([]))

  /** `value || null` for a text field. */
  function BlankToNull(s: string): (r: Option<string>)
    ensures r.None? <==> s == ""
    ensures r.Some? ==> r.value == s
  {
    if s == "" then None else Some(s)
  }

  /**
   * What `submit` hands to the creation handler: the spread values with a blank assignee
   * or latest update turned into `null`, falsy tags dropped and missing tags as [].
   * The customer name is passed as typed, blank included.
   */
  function Submitted(form: DialogForm): IssueFormValues {
    IssueFormValues(
      form.description,
      form.category,
      form.status,
      form.priority,
      BlankToNull(form.assignee),
      form.reporter,
      Some(form.customerName),
      BlankToNull(form.expectedResolution),
      None,
      Some(if form.tags.Some? then DropEmpty(form.tags.value) else []),
      [])
  }

  /** The submitted values: blanks become null, other values pass untrimmed, tags are the non-empty ones. */
  lemma SubmittedNormalises(form: DialogForm)
    ensures var v := Submitted(form);
      && (v.assignee.None? <==> form.assignee == "")
      && (v.assignee.Some? ==> v.assignee.value == form.assignee)
      && (v.expectedResolution.None? <==> form.expectedResolution == "")
      && (v.expectedResolution.Some? ==> v.expectedResolution.value == form.expectedResolution)
      && v.tags.Some?
      && (forall t :: t in v.tags.value <==> form.tags.Some? && t in form.tags.value && t != "")
      && v.description == form.description && v.reporter == form.reporter
  {
  }

  /** An issue created from the dialog is never assigned to the empty name. */
  lemma DialogNeverStoresBlankAssignee(form: DialogForm, serial: nat, now: Time)
    ensures NewIssue(Submitted(form), serial, now).assignee != Some("")
    ensures NewIssue(Submitted(form), serial, now).expectedResolution != Some("")
  {
  }

  /** The two required fields: description and reporter. */
  predicate CanSubmit(form: DialogForm) {
    form.description != "" && form.reporter != ""
  }

  /** The untouched form cannot be submitted; the defaults are the listed ones. */
  lemma DefaultFormIsIncomplete()
    ensures !CanSubmit(DefaultForm)
    ensures Submitted(DefaultForm).assignee.None? && Submitted(DefaultForm).tags == Some([])
  {
  }

  class NewIssueDialog {
    var form: DialogForm
    var selectedFile: Option<UploadFile>
    var open: bool

    constructor (open: bool)
      ensures form == DefaultForm && selectedFile.None? && this.open == open
    {
      form := DefaultForm;
      selectedFile := None;
      this.open := open;
    }

    /** The file input: the first picked file, or none. */
    method PickFile(file: Option<UploadFile>)
      modifies this`selectedFile
      ensures selectedFile == file
    {
      selectedFile := file;
    }

    /**
     * `submit`: a form missing a required field is not submitted. Otherwise the
     * normalised values and the selected file go to the dashboard's creation handler
     * (new document id `id`; `uploadedUrl` None when the upload throws); only when it
     * returns is the form reset, the file cleared and the dialog closed.
     */
    method Submit(store: IssueStore, email: Option<string>, id: IssueId, now: Time, uploadedUrl: Option<string>)
      returns (submitted: bool, ok: bool)
      requires store.Valid() && id !in store.issues && store.clock <= now
      modifies this, store
      ensures store.Valid()
      ensures submitted == CanSubmit(old(form))
      ensures !submitted ==> !ok && unchanged(this) && unchanged(store)
      ensures ok ==> submitted
      ensures submitted ==> ok == (old(selectedFile).None? || uploadedUrl.Some?)
      ensures submitted ==> store.counter == old(store.counter) + 1 && id in store.issues
      ensures submitted ==>
        var created := NewIssue(Submitted(old(form)), store.counter, now);
        && (old(selectedFile).Some? && ok ==>
              store.issues == old(store.issues)[id := WithDocument(created, Document(old(selectedFile).value.name, uploadedUrl.value), now)])
        && (old(selectedFile).None? || !ok ==> store.issues == old(store.issues)[id := created])
      ensures ok ==> form == DefaultForm && selectedFile.None? && !open
      ensures submitted && !ok ==> form == old(form) && selectedFile == old(selectedFile) && open == old(open)
    {
      if !CanSubmit(form) {
        return false, false;
      }
      submitted := true;
      ok := HandleCreateIssue(store, Submitted(form), selectedFile, email, id, now, uploadedUrl);
      if ok {
        form := DefaultForm;
        selectedFile := None;
        open := false;
      }
    }
  }
}

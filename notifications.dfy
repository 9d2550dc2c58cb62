/**
 * The two Cloud Functions of functions/index.js, reduced to the mail they decide to send:
 * who receives it and its subject. The SMTP transport, the HTML body and logging are not
 * modelled; a send failure is caught and changes nothing the model can observe.
 */
module Notifications {
  import opened Wrappers
  import opened Text
  import opened IssueTypes
  import opened IssueOptions

  /** A raw document field as the handler sees it: absent, `null` or a string. */
  datatype Field = Undefined | Null | Str(s: string)

  /** The fields of the issue document the handlers read. */
  datatype RawIssue = RawIssue(description: string, assignee: Field, reporter: Field)

  /** An outgoing mail: the recipient list (joined with ", ") and the subject. */
  datatype Mail = Mail(to: seq<string>, subject: string)

  /** How a stored issue looks to the handlers: an unassigned issue holds `null`. */
  function ToRaw(i: Issue): RawIssue {
    RawIssue(i.description, if i.assignee.Some? then Str(i.assignee.value) else Null, Str(i.reporter))
  }

  /** The handlers' own copy of the directory (index.js lines 12-30). */
  const HandlerUsers: seq<User> := [
    User("Ravichandar N", "n.ravi@biocliq.com"),
    User("Syed Furqan Azeez", "Furqan.azeez@biocliq.com"),
    User("B Rengarajan", "renga@biocliq.com"),
    User("Apeksha Sakegaonkar", "apeksha@biocliq.com"),
    User("Shivam Gaikwad", "shivam@biocliq.com"),
    User("Aamir Mohammed Shariff", "aamir@biocliq.com"),
    User("Shashi kiran km", "shashikiran@biocliq.com"),
    User("Yogesh Jadhav", "yogesh@biocliq.com"),
    User("Nayab Fathima", "nayab@biocliq.com"),
    User("Swapnil Patil", "swapnil@biocliq.com"),
    User("Akhila KR", "akhila@biocliq.com"),
    User("Mohammed Faisal Jamal Sabri", "faisal@biocliq.com"),
    User("Sanket Dhumal", "sanket@biocliq.com"),
    User("Mohd Irfanullah Khatib I", "irfan@biocliq.com"),
    User("Joyshree Debbarma", "joyshree@biocliq.com"),
    User("Hari Om Swarup S A", "hariomswarup@biocliq.com"),
    User("Amit Kumar", "amit@biocliq.com")
  ]

  /** The two copies of the directory agree entry for entry, so every name the screens offer resolves here. */
  lemma DirectoriesAgree()
    ensures HandlerUsers == AssignableUsers
    ensures WellFormedDirectory(HandlerUsers)
  {
    AssignableUsersWellFormed();
  }

  /** `users.find(u => u.name === name)?.email`: the first entry with exactly that name. */
  function FindEmail(users: seq<User>, name: string): (r: Option<string>)
    ensures r.None? <==> name !in Names(users)
    ensures r.Some? ==> exists k :: 0 <= k < |users| && users[k] == User(name, r.value) && name !in Names(users[..k])
  {
    if users == [] then None
    else if users[0].name == name then
      assert Names(users[..0]) == [] && Names(users)[0] == name;
      Some(users[0].email)
    else
      var r := FindEmail(users[1..], name);
      assert Names(users) == [users[0].name] + Names(users[1..]);
      if r.Some? then
        var k :| 0 <= k < |users| - 1 && users[1..][k] == User(name, r.value) && name !in Names(users[1..][..k]);
        assert Names(users[..k + 1]) == [users[0].name] + Names(users[1..][..k]);
        r
      else r
  }

  /** getUserEmail: only a string can equal a directory name; `null` and a missing field resolve to nothing. */
  function GetUserEmail(name: Field): (r: Option<string>)
    ensures name.Str? ==> r == FindEmail(HandlerUsers, name.s)
    ensures !name.Str? ==> r.None?
  {
    match name
    case Str(s) => FindEmail(HandlerUsers, s)
    case _ => None
  }

  /** In a directory with distinct names, lookup finds an email exactly when the pair is listed. */
  lemma FindEmailExact(users: seq<User>, name: string, email: string)
    requires WellFormedDirectory(users)
    ensures FindEmail(users, name) == Some(email) <==> User(name, email) in users
  {
    if User(name, email) in users {
      var j :| 0 <= j < |users| && users[j] == User(name, email);
      assert Names(users)[j] == name;
      var r := FindEmail(users, name);
      var k :| 0 <= k < |users| && users[k] == User(name, r.value) && name !in Names(users[..k]);
      assert Names(users)[k] == name;
    }
  }

  /** Every directory member's name resolves to that member's email; a name outside it, or an empty one, resolves to nothing. */
  lemma DirectoryNamesResolve(name: string, email: string)
    ensures GetUserEmail(Str(name)) == Some(email) <==> User(name, email) in AssignableUsers
    ensures GetUserEmail(Str("")).None?
  {
    DirectoriesAgree();
    FindEmailExact(HandlerUsers, name, email);
    EmptyNameUnlisted(HandlerUsers);
  }

  /** A well-formed directory lists no empty name. */
  lemma EmptyNameUnlisted(users: seq<User>)
    requires WellFormedDirectory(users)
    ensures "" !in Names(users)
  {
  }

  /** The creation subject: the first 50 characters of the description and an ellipsis, always. */
  function CreationSubject(description: string): (r: string)
    ensures |description| <= 50 ==> r == "New Issue Created: " + description + "..."
    ensures |description| > 50 ==> r == "New Issue Created: " + description[..50] + "..."
    ensures |r| <= |"New Issue Created: "| + 50 + 3
  {
    "New Issue Created: " + Take(description, 50) + "..."
  }

  function ChangeSubject(description: string): (r: string)
    ensures |description| <= 50 ==> r == "Issue Assignment Changed: " + description + "..."
    ensures |description| > 50 ==> r == "Issue Assignment Changed: " + description[..50] + "..."
    ensures |r| <= |"Issue Assignment Changed: "| + 50 + 3
  {
    "Issue Assignment Changed: " + Take(description, 50) + "..."
  }

  /**
   * The recipient list of the creation mail: the assignee's email if it resolved, then the
   * reporter's if it resolved and differs from the assignee's.
   */
  method CollectRecipients(assigneeEmail: Option<string>, reporterEmail: Option<string>) returns (recipientEmails: seq<string>)
    ensures |recipientEmails| <= 2 && NoDup(recipientEmails)
    ensures recipientEmails == [] <==> !Truthy(assigneeEmail) && !Truthy(reporterEmail)
    ensures forall e :: e in recipientEmails <==> e != "" && (assigneeEmail == Some(e) || reporterEmail == Some(e))
    ensures Truthy(assigneeEmail) ==> recipientEmails[0] == assigneeEmail.value
  {
    recipientEmails := [];
    if Truthy(assigneeEmail) {
      recipientEmails := recipientEmails + [assigneeEmail.value];
    }
    if Truthy(reporterEmail) && reporterEmail != assigneeEmail {
      recipientEmails := recipientEmails + [reporterEmail.value];
    }
  }

  /**
   * sendEmailOnNewIssue: None when the event carries no snapshot or nobody resolves;
   * otherwise one mail to the assignee's email (if it resolves) followed by the
   * reporter's (if it resolves and differs).
   */
  method OnIssueCreated(snap: Option<RawIssue>) returns (mail: Option<Mail>)
    ensures snap.None? ==> mail.None?
    ensures snap.Some? ==>
      var assigneeEmail := GetUserEmail(snap.value.assignee);
      var reporterEmail := GetUserEmail(snap.value.reporter);
      && (mail.None? <==> !Truthy(assigneeEmail) && !Truthy(reporterEmail))
      && (mail.Some? ==>
            && 1 <= |mail.value.to| <= 2
            && NoDup(mail.value.to)
            && (forall e :: e in mail.value.to <==> e != "" && (assigneeEmail == Some(e) || reporterEmail == Some(e)))
            && (Truthy(assigneeEmail) ==> mail.value.to[0] == assigneeEmail.value)
            && mail.value.subject == CreationSubject(snap.value.description))
  {
    if snap.None? {
      return None;
    }
    var issue := snap.value;
    var assigneeEmail := GetUserEmail(issue.assignee);
    var reporterEmail := GetUserEmail(issue.reporter);
    var recipientEmails := CollectRecipients(assigneeEmail, reporterEmail);
    if |recipientEmails| > 0 {
      mail := Some(Mail(recipientEmails, CreationSubject(issue.description)));
    } else {
      mail := None;
    }
  }

  /**
   * sendEmailOnAssigneeChange: a mail only when the assignee field changed under strict
   * inequality and the new value resolves, addressed to that email alone.
   */
  function OnAssigneeChange(before: RawIssue, after: RawIssue): (mail: Option<Mail>)
    ensures mail.Some? <==> before.assignee != after.assignee && Truthy(GetUserEmail(after.assignee))
    ensures mail.Some? ==> mail.value == Mail([GetUserEmail(after.assignee).value], ChangeSubject(after.description))
  {
    if before.assignee != after.assignee then
      var newAssigneeEmail := GetUserEmail(after.assignee);
      if Truthy(newAssigneeEmail) then Some(Mail([newAssigneeEmail.value], ChangeSubject(after.description))) else None
    else None
  }

  /**
   * Only the assignee and the new description matter: an update that keeps the assignee
   * (a status change, say) sends nothing, and two updates that agree on those fields send the same.
   */
  lemma OnlyAssigneeMatters(b1: RawIssue, a1: RawIssue, b2: RawIssue, a2: RawIssue)
    requires b1.assignee == b2.assignee && a1.assignee == a2.assignee && a1.description == a2.description
    ensures OnAssigneeChange(b1, a1) == OnAssigneeChange(b2, a2)
    ensures b1.assignee == a1.assignee ==> OnAssigneeChange(b1, a1).None?
  {
  }

  /** A status update written through the store never triggers a mail. */
  lemma StatusChangeSendsNothing(i: Issue, s: Status, t: Time)
    ensures OnAssigneeChange(ToRaw(i), ToRaw(i.(status := s, updatedAt := t))).None?
  {
  }

  /** Clearing the assignee, to `null` or to '', counts as a change but sends nothing. */
  lemma ClearedAssigneeSendsNothing(before: RawIssue, after: RawIssue)
    requires after.assignee == Null || after.assignee == Str("")
    ensures OnAssigneeChange(before, after).None?
  {
    DirectoryNamesResolve("", "");
  }

  /** Reassigning from Ravichandar N to Shivam Gaikwad mails shivam@biocliq.com only. */
  lemma ReassignmentExample(description: string)
    ensures OnAssigneeChange(RawIssue(description, Str("Ravichandar N"), Str("B Rengarajan")),
                             RawIssue(description, Str("Shivam Gaikwad"), Str("B Rengarajan")))
         == Some(Mail(["shivam@biocliq.com"], ChangeSubject(description)))
  {
    DirectoriesAgree();
    assert HandlerUsers[4] == User("Shivam Gaikwad", "shivam@biocliq.com");
    FindEmailExact(HandlerUsers, "Shivam Gaikwad", "shivam@biocliq.com");
  }
}

/**
 * The issue store (src/services/issueService.ts) over an in-memory map instead of
 * Firestore: creation with the serial-number counter, field updates, status changes,
 * archiving, attached documents and the per-issue activity log. Every operation is one
 * atomic step; the write side is the class IssueStore, the read side (the query that
 * `subscribeToIssues` builds and its client-side search) is a set of predicates and
 * functions over the stored map.
 */
module IssueService {
  import opened Wrappers
  import opened Text
  import opened IssueTypes
  import opened IssueOptions

  /** A file the user picked; only its name reaches the store. */
  datatype UploadFile = UploadFile(name: string)

  // ---------------------------------------------------------------------------
  // Single-issue transitions
  // ---------------------------------------------------------------------------

  /**
   * The record createIssue writes: the form values, then the serial number,
   * `assignee ?? null`, `tags ?? []`, both timestamps and `isArchived: false`.
   * An absent SLA tag reads as "On Track".
   */
  function NewIssue(values: IssueFormValues, serial: nat, now: Time): (r: Issue)
    ensures r.serialNumber == serial && !r.isArchived
    ensures r.createdAt == now && r.updatedAt == now
    ensures r.description == values.description && r.category == values.category
    ensures r.status == values.status && r.priority == values.priority
    ensures r.assignee == values.assignee && r.reporter == values.reporter
    ensures r.customerName == values.customerName && r.expectedResolution == values.expectedResolution
    ensures r.documents == values.documents
    ensures values.slaBreachRisk.None? ==> r.slaBreachRisk == OnTrack
    ensures values.slaBreachRisk.Some? ==> r.slaBreachRisk == values.slaBreachRisk.value
    ensures values.tags.None? ==> r.tags == []
    ensures values.tags.Some? ==> r.tags == values.tags.value
  {
    Issue(
      serial,
      values.description,
      values.category,
      values.status,
      values.priority,
      values.assignee,
      values.reporter,
      values.customerName,
      now,
      now,
      values.expectedResolution,
      values.slaBreachRisk.GetOr(OnTrack),
      values.tags.GetOr([]),
      values.documents,
      false)
  }

  /** updateIssue's `updateDoc`: every supplied field overwritten, `updatedAt` refreshed. */
  function ApplyPatch(i: Issue, p: IssuePatch, now: Time): (r: Issue)
    ensures r.serialNumber == i.serialNumber && r.createdAt == i.createdAt && r.updatedAt == now
  {
    Issue(
      i.serialNumber,
      p.description.GetOr(i.description),
      p.category.GetOr(i.category),
      p.status.GetOr(i.status),
      p.priority.GetOr(i.priority),
      p.assignee.GetOr(i.assignee),
      p.reporter.GetOr(i.reporter),
      if p.customerName.Some? then p.customerName else i.customerName,
      i.createdAt,
      now,
      p.expectedResolution.GetOr(i.expectedResolution),
      p.slaBreachRisk.GetOr(i.slaBreachRisk),
      p.tags.GetOr(i.tags),
      p.documents.GetOr(i.documents),
      p.isArchived.GetOr(i.isArchived))
  }

  /** A field is rewritten exactly when the patch supplies it; every other field keeps its value. */
  lemma PatchChangesOnlySuppliedFields(i: Issue, p: IssuePatch, now: Time)
    ensures var r := ApplyPatch(i, p, now);
      && (p.description.Some? ==> r.description == p.description.value)
      && (p.description.None? ==> r.description == i.description)
      && (p.status.Some? ==> r.status == p.status.value)
      && (p.status.None? ==> r.status == i.status)
      && (p.priority.Some? ==> r.priority == p.priority.value)
      && (p.priority.None? ==> r.priority == i.priority)
      && (p.assignee.Some? ==> r.assignee == p.assignee.value)
      && (p.assignee.None? ==> r.assignee == i.assignee)
      && (p.expectedResolution.Some? ==> r.expectedResolution == p.expectedResolution.value)
      && (p.expectedResolution.None? ==> r.expectedResolution == i.expectedResolution)
      && (p.isArchived.Some? ==> r.isArchived == p.isArchived.value)
      && (p.isArchived.None? ==> r.isArchived == i.isArchived)
      && r.category == p.category.GetOr(i.category)
      && r.reporter == p.reporter.GetOr(i.reporter)
      && r.customerName == (if p.customerName.Some? then p.customerName else i.customerName)
      && r.slaBreachRisk == p.slaBreachRisk.GetOr(i.slaBreachRisk)
      && r.tags == p.tags.GetOr(i.tags)
      && r.documents == p.documents.GetOr(i.documents)
  {
  }

  /** An update with no fields only moves `updatedAt`. */
  lemma EmptyPatchOnlyTouches(i: Issue, now: Time)
    ensures ApplyPatch(i, EmptyPatch, now) == i.(updatedAt := now)
  {
  }

  /** Writing the same fields twice is the same as writing them once. */
  lemma PatchIdempotent(i: Issue, p: IssuePatch, t1: Time, t2: Time)
    ensures ApplyPatch(ApplyPatch(i, p, t1), p, t2) == ApplyPatch(i, p, t2)
  {
  }

  /** updateIssueStatus's `updateDoc`: any status may follow any other. */
  function WithStatus(i: Issue, s: Status, now: Time): Issue {
    i.(status := s, updatedAt := now)
  }

  /** archiveIssue / unarchiveIssue's `updateDoc`: the flag is set, not toggled. */
  function WithArchived(i: Issue, archived: bool, now: Time): Issue {
    i.(isArchived := archived, updatedAt := now)
  }

  /** Archiving or unarchiving twice leaves the same flag as doing it once. */
  lemma ArchiveIdempotent(i: Issue, archived: bool, t1: Time, t2: Time)
    ensures WithArchived(WithArchived(i, archived, t1), archived, t2) == WithArchived(i, archived, t2)
    ensures WithArchived(i, archived, t1).isArchived == archived
  {
  }

  /** Firestore's `arrayUnion` of one element: appended only when no equal element is present. */
  function ArrayUnion<T(==,!new)>(xs: seq<T>, x: T): (r: seq<T>)
    ensures forall y :: y in r <==> y in xs || y == x
    ensures |xs| <= |r| <= |xs| + 1 && r[..|xs|] == xs
    ensures NoDup(xs) ==> NoDup(r)
  {
    if x in xs then xs else xs + [x]
  }

  /** Adding the same document again changes nothing. */
  lemma ArrayUnionIdempotent<T(!new)>(xs: seq<T>, x: T)
    ensures ArrayUnion(ArrayUnion(xs, x), x) == ArrayUnion(xs, x)
  {
  }

  /** addDocumentToIssue's `updateDoc`. */
  function WithDocument(i: Issue, d: Document, now: Time): Issue {
    i.(documents := ArrayUnion(i.documents, d), updatedAt := now)
  }

  /** The entry updateIssueStatus logs: a closure exactly when the new status is Closed. */
  function StatusActivity(s: Status, actor: string, now: Time): (a: Activity)
    ensures a.action == Closure <==> s == Closed
    ensures a.action == StatusUpdate <==> s != Closed
    ensures a.message == "Status changed to " + StatusLabel(s)
    ensures a.actor == actor && a.timestamp == now
  {
    Activity(actor, if s == Closed then Closure else StatusUpdate, "Status changed to " + StatusLabel(s), now)
  }

  /** A log whose timestamps never decrease and whose last entry is no later than `clock`. */
  predicate Chronological(log: seq<Activity>, clock: Time) {
    log == [] || (log[|log| - 1].timestamp <= clock && Chronological(log[..|log| - 1], log[|log| - 1].timestamp))
  }

  /** In a chronological log every earlier entry is no later than every later one, and all precede the clock. */
  lemma {:induction false} ChronologicalOrdered(log: seq<Activity>, clock: Time, j: nat, k: nat)
    requires Chronological(log, clock) && j <= k < |log|
    ensures log[j].timestamp <= log[k].timestamp <= clock
  {
    var n := |log| - 1;
    if k < n {
      ChronologicalOrdered(log[..n], log[n].timestamp, j, k);
    } else if j < k {
      ChronologicalOrdered(log[..n], log[n].timestamp, j, n - 1);
    }
  }

  /**
   * Serial numbers are taken from 1..counter and `owner` maps each one back to its issue,
   * so no two issues share a serial number.
   */
  predicate SerialsAssigned(issues: map<IssueId, Issue>, counter: nat, owner: map<nat, IssueId>) {
    forall id :: id in issues ==>
      && 1 <= issues[id].serialNumber <= counter
      && issues[id].serialNumber in owner
      && owner[issues[id].serialNumber] == id
  }

  lemma SerialsDistinct(issues: map<IssueId, Issue>, counter: nat, owner: map<nat, IssueId>, id1: IssueId, id2: IssueId)
    requires SerialsAssigned(issues, counter, owner)
    requires id1 in issues && id2 in issues && id1 != id2
    ensures issues[id1].serialNumber != issues[id2].serialNumber
  {
  }

  predicate TimesBounded(issues: map<IssueId, Issue>, clock: Time) {
    forall id :: id in issues ==> issues[id].createdAt <= issues[id].updatedAt <= clock
  }

  /** Every log opens with its creation entry and is chronological. */
  predicate LogsWellFormed(activities: map<IssueId, seq<Activity>>, clock: Time) {
    forall id :: id in activities ==>
      && |activities[id]| >= 1
      && activities[id][0].action == Comment
      && activities[id][0].message == "Issue created"
      && Chronological(activities[id], clock)
  }

  /** The store invariant: one log per issue, distinct serials up to the counter, timestamps behind the clock. */
  predicate StoreInvariant(issues: map<IssueId, Issue>, counter: nat, activities: map<IssueId, seq<Activity>>,
                           clock: Time, owner: map<nat, IssueId>) {
    && activities.Keys == issues.Keys
    && SerialsAssigned(issues, counter, owner)
    && TimesBounded(issues, clock)
    && LogsWellFormed(activities, clock)
  }

  /** Creation keeps the invariant, and the new serial number is above every earlier one. */
  lemma CreateKeepsInvariant(issues: map<IssueId, Issue>, counter: nat, activities: map<IssueId, seq<Activity>>,
                             clock: Time, owner: map<nat, IssueId>, id: IssueId, issue: Issue, entry: Activity, now: Time)
    requires StoreInvariant(issues, counter, activities, clock, owner)
    requires id !in issues && clock <= now
    requires issue.serialNumber == counter + 1 && issue.createdAt <= issue.updatedAt <= now
    requires entry.action == Comment && entry.message == "Issue created" && entry.timestamp <= now
    ensures StoreInvariant(issues[id := issue], counter + 1, activities[id := [entry]], now, owner[counter + 1 := id])
    ensures forall other :: other in issues ==> issues[other].serialNumber < issue.serialNumber
  {
    var activities': map<IssueId, seq<Activity>> := activities[id := [entry]];
    forall i | i in activities'
      ensures && |activities'[i]| >= 1
              && activities'[i][0].action == Comment
              && activities'[i][0].message == "Issue created"
              && Chronological(activities'[i], now)
    {
      if i != id {
        ChronologicalLater(activities[i], clock, now);
      }
    }
  }

  /** Rewriting an issue with the same serial number and creation time, at `now`, keeps the invariant. */
  lemma RewriteKeepsInvariant(issues: map<IssueId, Issue>, counter: nat, activities: map<IssueId, seq<Activity>>,
                              clock: Time, owner: map<nat, IssueId>, id: IssueId, issue: Issue, now: Time)
    requires StoreInvariant(issues, counter, activities, clock, owner)
    requires id in issues && clock <= now
    requires issue.serialNumber == issues[id].serialNumber
    requires issue.createdAt == issues[id].createdAt && issue.updatedAt == now
    ensures StoreInvariant(issues[id := issue], counter, activities, now, owner)
  {
    var issues': map<IssueId, Issue> := issues[id := issue];
    assert issues'.Keys == issues.Keys;
    forall i | i in activities
      ensures && |activities[i]| >= 1
              && activities[i][0].action == Comment
              && activities[i][0].message == "Issue created"
              && Chronological(activities[i], now)
    {
      ChronologicalLater(activities[i], clock, now);
    }
  }

  /** A rewrite followed by one log entry at the same time keeps the invariant. */
  lemma RewriteAndLogKeepInvariant(issues: map<IssueId, Issue>, counter: nat, activities: map<IssueId, seq<Activity>>,
                                   clock: Time, owner: map<nat, IssueId>, id: IssueId, issue: Issue, entry: Activity, now: Time)
    requires StoreInvariant(issues, counter, activities, clock, owner)
    requires id in issues && clock <= now
    requires issue.serialNumber == issues[id].serialNumber
    requires issue.createdAt == issues[id].createdAt && issue.updatedAt == now
    requires entry.timestamp == now
    ensures id in activities
    ensures StoreInvariant(issues[id := issue], counter, activities[id := activities[id] + [entry]], now, owner)
  {
    RewriteKeepsInvariant(issues, counter, activities, clock, owner, id, issue, now);
    LogKeepsInvariant(issues[id := issue], counter, activities, now, owner, id, entry);
  }

  /** Appending an entry stamped with the current clock keeps the invariant. */
  lemma LogKeepsInvariant(issues: map<IssueId, Issue>, counter: nat, activities: map<IssueId, seq<Activity>>,
                          clock: Time, owner: map<nat, IssueId>, id: IssueId, entry: Activity)
    requires StoreInvariant(issues, counter, activities, clock, owner)
    requires id in activities && entry.timestamp == clock
    ensures StoreInvariant(issues, counter, activities[id := activities[id] + [entry]], clock, owner)
  {
    var activities': map<IssueId, seq<Activity>> := activities[id := activities[id] + [entry]];
    forall i | i in activities'
      ensures && |activities'[i]| >= 1
              && activities'[i][0].action == Comment
              && activities'[i][0].message == "Issue created"
              && Chronological(activities'[i], clock)
    {
      if i == id {
        assert activities'[i][0] == activities[id][0];
        ChronologicalAppend(activities[id], entry, clock);
      }
    }
  }

  /** Moving the clock forward to a new entry's time and appending it keeps the invariant. */
  lemma LogLaterKeepsInvariant(issues: map<IssueId, Issue>, counter: nat, activities: map<IssueId, seq<Activity>>,
                               clock: Time, owner: map<nat, IssueId>, id: IssueId, entry: Activity)
    requires StoreInvariant(issues, counter, activities, clock, owner)
    requires id in activities && clock <= entry.timestamp
    ensures StoreInvariant(issues, counter, activities[id := activities[id] + [entry]], entry.timestamp, owner)
  {
    ClockAdvanceKeepsInvariant(issues, counter, activities, clock, owner, entry.timestamp);
    LogKeepsInvariant(issues, counter, activities, entry.timestamp, owner, id, entry);
  }

  /** Moving the clock forward keeps the invariant. */
  lemma ClockAdvanceKeepsInvariant(issues: map<IssueId, Issue>, counter: nat, activities: map<IssueId, seq<Activity>>,
                                   clock: Time, owner: map<nat, IssueId>, now: Time)
    requires StoreInvariant(issues, counter, activities, clock, owner) && clock <= now
    ensures StoreInvariant(issues, counter, activities, now, owner)
  {
    forall i | i in activities ensures Chronological(activities[i], now) {
      ChronologicalLater(activities[i], clock, now);
    }
  }

  lemma ChronologicalLater(log: seq<Activity>, clock: Time, later: Time)
    requires Chronological(log, clock) && clock <= later
    ensures Chronological(log, later)
  {
  }

  lemma ChronologicalAppend(log: seq<Activity>, entry: Activity, clock: Time)
    requires Chronological(log, clock) && clock <= entry.timestamp
    ensures Chronological(log + [entry], entry.timestamp)
  {
    assert (log + [entry])[..|log|] == log;
  }

  // ---------------------------------------------------------------------------
  // The store
  // ---------------------------------------------------------------------------

  class IssueStore {
    /** The `issues` collection, by document id. */
    var issues: map<IssueId, Issue>
    /** `counters/issues.count`; 0 stands for a missing counter document, which `|| 0` reads the same way. */
    var counter: nat
    /** Each issue's `activities` sub-collection, in insertion order. */
    var activities: map<IssueId, seq<Activity>>
    /** The latest `Timestamp.now()` an operation ran at, from the caller's clock. */
    var clock: Time
    /** Which issue holds each serial number handed out so far. */
    ghost var serialOwner: map<nat, IssueId>

    ghost predicate Valid()
      reads this
    {
      StoreInvariant(issues, counter, activities, clock, serialOwner)
    }

    constructor ()
      ensures Valid()
      ensures issues == map[] && activities == map[] && counter == 0 && clock == 0
    {
      issues := map[];
      counter := 0;
      activities := map[];
      clock := 0;
      serialOwner := map[];
    }

    /** logActivity: appends one entry, stamped with the caller's clock `now`, to the issue's log. */
    method LogActivity(id: IssueId, action: Action, actor: string, message: string, now: Time)
      requires Valid() && id in issues && clock <= now
      modifies this
      ensures Valid()
      ensures issues == old(issues) && counter == old(counter) && clock == now
      ensures activities == old(activities)[id := old(activities)[id] + [Activity(actor, action, message, now)]]
    {
      var entry := Activity(actor, action, message, now);
      var logs := activities[id := activities[id] + [entry]];
      LogLaterKeepsInvariant(issues, counter, activities, clock, serialOwner, id, entry);
      clock, activities := now, logs;
    }

    /**
     * createIssue: reads the counter, writes the issue with serial number counter + 1 and
     * the new counter in one transaction, then logs "Issue created". `id` is the fresh
     * document id Firestore generates.
     */
    method CreateIssue(values: IssueFormValues, actor: string, id: IssueId, now: Time) returns (newId: IssueId)
      requires Valid() && id !in issues && clock <= now
      modifies this
      ensures Valid()
      ensures newId == id
      ensures counter == old(counter) + 1
      ensures issues == old(issues)[id := NewIssue(values, counter, now)]
      ensures activities == old(activities)[id := [Activity(actor, Comment, "Issue created", now)]]
      ensures forall other :: other in old(issues) ==> old(issues)[other].serialNumber < issues[id].serialNumber
      ensures clock == now
    {
      var newCount := counter + 1;
      var issue := NewIssue(values, newCount, now);
      var entry := Activity(actor, Comment, "Issue created", now);
      CreateKeepsInvariant(issues, counter, activities, clock, serialOwner, id, issue, entry, now);
      issues := issues[id := issue];
      serialOwner := serialOwner[newCount := id];
      counter := newCount;
      clock := now;
      activities := activities[id := [entry]];
      newId := id;
    }

    /**
     * createIssueWithDocument: creates the issue, uploads the file (`uploadedUrl` is the
     * download URL, None when the upload throws) and then attaches it. A failed upload
     * leaves the issue created without the document and reports failure.
     */
    method CreateIssueWithDocument(values: IssueFormValues, file: UploadFile, actor: string, id: IssueId,
                                   now: Time, uploadedUrl: Option<string>)
      returns (newId: IssueId, ok: bool)
      requires Valid() && id !in issues && clock <= now
      modifies this
      ensures Valid()
      ensures newId == id && ok == uploadedUrl.Some?
      ensures counter == old(counter) + 1
      ensures ok ==> issues == old(issues)[id := WithDocument(NewIssue(values, counter, now), Document(file.name, uploadedUrl.value), now)]
      ensures !ok ==> issues == old(issues)[id := NewIssue(values, counter, now)]
      ensures activities == old(activities)[id := [Activity(actor, Comment, "Issue created", now)]]
    {
      newId := CreateIssue(values, actor, id, now);
      if uploadedUrl.None? {
        ok := false;
        return;
      }
      var d := Document(file.name, uploadedUrl.value);
      ghost var serial := counter;
      OverwriteTwice(old(issues), id, NewIssue(values, serial, now), WithDocument(NewIssue(values, serial, now), d, now));
      ok := AddDocumentToIssue(newId, d, now);
    }

    /**
     * updateIssue: writes the supplied fields and `updatedAt`, then logs a comment with the
     * given message or "Issue updated". A missing issue makes `updateDoc` throw: nothing changes.
     */
    method UpdateIssue(id: IssueId, patch: IssuePatch, actor: string, message: Option<string>, now: Time)
      returns (ok: bool)
      requires Valid() && clock <= now
      modifies this
      ensures Valid()
      ensures ok == (id in old(issues)) && counter == old(counter)
      ensures ok ==> issues == old(issues)[id := ApplyPatch(old(issues)[id], patch, now)]
      ensures ok ==> activities == old(activities)[id := old(activities)[id] + [Activity(actor, Comment, message.GetOr("Issue updated"), now)]]
      ensures !ok ==> unchanged(this)
    {
      if id !in issues {
        return false;
      }
      ok := Rewrite(id, ApplyPatch(issues[id], patch, now), Activity(actor, Comment, message.GetOr("Issue updated"), now), now);
    }

    /** updateIssueStatus: no transition check; logs a closure or status_update entry. */
    method UpdateIssueStatus(id: IssueId, status: Status, actor: string, now: Time) returns (ok: bool)
      requires Valid() && clock <= now
      modifies this
      ensures Valid()
      ensures ok == (id in old(issues)) && counter == old(counter)
      ensures ok ==> issues == old(issues)[id := WithStatus(old(issues)[id], status, now)]
      ensures ok ==> activities == old(activities)[id := old(activities)[id] + [StatusActivity(status, actor, now)]]
      ensures !ok ==> unchanged(this)
    {
      if id !in issues {
        return false;
      }
      ok := Rewrite(id, WithStatus(issues[id], status, now), StatusActivity(status, actor, now), now);
    }

    /** archiveIssue (archived = true) and unarchiveIssue (archived = false), each logging its comment. */
    method SetArchived(id: IssueId, archived: bool, actor: string, now: Time) returns (ok: bool)
      requires Valid() && clock <= now
      modifies this
      ensures Valid()
      ensures ok == (id in old(issues)) && counter == old(counter)
      ensures ok ==> issues == old(issues)[id := WithArchived(old(issues)[id], archived, now)]
      ensures ok ==> activities == old(activities)[id := old(activities)[id] +
                [Activity(actor, Comment, if archived then "Issue archived" else "Issue unarchived", now)]]
      ensures !ok ==> unchanged(this)
    {
      if id !in issues {
        return false;
      }
      var message := if archived then "Issue archived" else "Issue unarchived";
      ok := Rewrite(id, WithArchived(issues[id], archived, now), Activity(actor, Comment, message, now), now);
    }

    method ArchiveIssue(id: IssueId, actor: string, now: Time) returns (ok: bool)
      requires Valid() && clock <= now
      modifies this
      ensures Valid()
      ensures ok == (id in old(issues)) && counter == old(counter)
      ensures ok ==> issues == old(issues)[id := WithArchived(old(issues)[id], true, now)]
      ensures ok ==> activities == old(activities)[id := old(activities)[id] + [Activity(actor, Comment, "Issue archived", now)]]
      ensures !ok ==> unchanged(this)
    {
      ok := SetArchived(id, true, actor, now);
    }

    method UnarchiveIssue(id: IssueId, actor: string, now: Time) returns (ok: bool)
      requires Valid() && clock <= now
      modifies this
      ensures Valid()
      ensures ok == (id in old(issues)) && counter == old(counter)
      ensures ok ==> issues == old(issues)[id := WithArchived(old(issues)[id], false, now)]
      ensures ok ==> activities == old(activities)[id := old(activities)[id] + [Activity(actor, Comment, "Issue unarchived", now)]]
      ensures !ok ==> unchanged(this)
    {
      ok := SetArchived(id, false, actor, now);
    }

    /** The shared write of the three logging updates: replace the issue, then log one entry. */
    method Rewrite(id: IssueId, issue: Issue, entry: Activity, now: Time) returns (ok: bool)
      requires Valid() && clock <= now && id in issues
      requires issue.serialNumber == issues[id].serialNumber
      requires issue.createdAt == issues[id].createdAt && issue.updatedAt == now && entry.timestamp == now
      modifies this
      ensures Valid() && ok
      ensures counter == old(counter)
      ensures issues == old(issues)[id := issue]
      ensures activities == old(activities)[id := old(activities)[id] + [entry]]
    {
      RewriteKeepsInvariant(issues, counter, activities, clock, serialOwner, id, issue, now);
      issues := issues[id := issue];
      clock := now;
      LogActivity(id, entry.action, entry.actor, entry.message, now);
      ok := true;
    }

    /** addDocumentToIssue: set-union into `documents`, `updatedAt` refreshed, nothing logged. */
    method AddDocumentToIssue(id: IssueId, d: Document, now: Time) returns (ok: bool)
      requires Valid() && clock <= now
      modifies this
      ensures Valid()
      ensures ok == (id in old(issues)) && counter == old(counter)
      ensures ok ==> issues == old(issues)[id := WithDocument(old(issues)[id], d, now)]
      ensures activities == old(activities)
      ensures !ok ==> unchanged(this)
    {
      if id !in issues {
        return false;
      }
      RewriteKeepsInvariant(issues, counter, activities, clock, serialOwner, id, WithDocument(issues[id], d, now), now);
      issues := issues[id := WithDocument(issues[id], d, now)];
      clock := now;
      ok := true;
    }
  }

  /** Writing a key twice leaves only the second value. */
  lemma OverwriteTwice<K, V>(m: map<K, V>, k: K, a: V, b: V)
    ensures m[k := a][k := b] == m[k := b]
  {
  }

  // ---------------------------------------------------------------------------
  // The query subscribeToIssues builds, and its client-side search
  // ---------------------------------------------------------------------------

  /** A query result row: document id and issue. */
  datatype Row = Row(id: IssueId, issue: Issue)

  /** A category/status/priority list narrows the query only when non-empty and shorter than the full list. */
  predicate Constrains<T>(selected: seq<T>, fullLength: nat) {
    0 < |selected| < fullLength
  }

  /** The `where(field, 'in', list)` clause, present only when the list constrains. */
  predicate Admits<T(==)>(selected: seq<T>, fullLength: nat, x: T) {
    Constrains(selected, fullLength) ==> x in selected
  }

  /** The `where` clauses of the query, for one issue. */
  predicate MatchesQuery(i: Issue, f: IssueFilters) {
    && i.isArchived == IsSet(f.showArchived)
    && Admits(f.categories, |AllCategories|, i.category)
    && Admits(f.statuses, |AllStatuses|, i.status)
    && Admits(f.priorities, |AllPriorities|, i.priority)
    && (Truthy(f.assignee) ==> i.assignee == f.assignee)
  }

  predicate SortedBySerial(rows: seq<Row>) {
    forall j, k :: 0 <= j < k < |rows| ==> rows[j].issue.serialNumber < rows[k].issue.serialNumber
  }

  /** What the database returns: every stored issue that matches, each once, by serial number ascending. */
  predicate IsQueryResult(store: map<IssueId, Issue>, f: IssueFilters, rows: seq<Row>) {
    && (forall k :: 0 <= k < |rows| ==>
          rows[k].id in store && store[rows[k].id] == rows[k].issue && MatchesQuery(rows[k].issue, f))
    && (forall id :: id in store && MatchesQuery(store[id], f) ==> Row(id, store[id]) in rows)
    && SortedBySerial(rows)
  }

  /** Two sequences sorted strictly by serial number with the same elements are the same sequence. */
  lemma {:induction false} SortedSameElements(a: seq<Row>, b: seq<Row>)
    requires SortedBySerial(a) && SortedBySerial(b)
    requires forall x :: x in a <==> x in b
    ensures a == b
  {
    assert a == [] || a[0] in a;
    assert b == [] || b[0] in b;
    if a != [] && b != [] {
      HeadsEqual(a, b);
      forall x ensures x in a[1..] <==> x in b[1..] {
        TailAbove(a, x);
        TailAbove(b, x);
        assert x in a <==> x == a[0] || x in a[1..] by { assert a == [a[0]] + a[1..]; }
        assert x in b <==> x == b[0] || x in b[1..] by { assert b == [b[0]] + b[1..]; }
      }
      SortedSameElements(a[1..], b[1..]);
      assert a == [a[0]] + a[1..] && b == [b[0]] + b[1..];
    }
  }

  /** Rows after the first carry a larger serial number than the first. */
  lemma TailAbove(a: seq<Row>, x: Row)
    requires SortedBySerial(a) && a != []
    ensures SortedBySerial(a[1..])
    ensures x in a[1..] ==> a[0].issue.serialNumber < x.issue.serialNumber
  {
    if x in a[1..] {
      var k :| 0 <= k < |a| - 1 && a[1..][k] == x;
      assert a[k + 1] == x;
    }
  }

  /** The smallest serial number is the first row of both. */
  lemma HeadsEqual(a: seq<Row>, b: seq<Row>)
    requires SortedBySerial(a) && SortedBySerial(b) && a != [] && b != []
    requires a[0] in b && b[0] in a
    ensures a[0] == b[0]
  {
    var i :| 0 <= i < |a| && a[i] == b[0];
    var j :| 0 <= j < |b| && b[j] == a[0];
    assert a[0].issue.serialNumber <= a[i].issue.serialNumber;
    assert b[0].issue.serialNumber <= b[j].issue.serialNumber;
    assert i == 0;
  }

  /** The query determines its result: any two results for the same store and filters are equal. */
  lemma QueryResultUnique(store: map<IssueId, Issue>, f: IssueFilters, a: seq<Row>, b: seq<Row>)
    requires IsQueryResult(store, f, a) && IsQueryResult(store, f, b)
    ensures a == b
  {
    forall x ensures x in a <==> x in b {
      if x in a {
        var k :| 0 <= k < |a| && a[k] == x;
        assert Row(x.id, store[x.id]) in b;
      }
      if x in b {
        var k :| 0 <= k < |b| && b[k] == x;
        assert Row(x.id, store[x.id]) in a;
      }
    }
    SortedSameElements(a, b);
  }

  /** No two stored issues share a serial number. */
  predicate DistinctSerials(store: map<IssueId, Issue>) {
    forall id1, id2 :: id1 in store && id2 in store && id1 != id2 ==> store[id1].serialNumber != store[id2].serialNumber
  }

  /** Inserts a row before the first row with a larger serial number. */
  function InsertBySerial(rows: seq<Row>, x: Row): (r: seq<Row>)
    ensures forall y :: y in r <==> y in rows || y == x
  {
    if rows == [] then [x]
    else if x.issue.serialNumber < rows[0].issue.serialNumber then [x] + rows
    else
      var rest := InsertBySerial(rows[1..], x);
      assert forall y :: y in rows <==> y == rows[0] || y in rows[1..] by { assert rows == [rows[0]] + rows[1..]; }
      [rows[0]] + rest
  }

  /** Inserting a row whose serial number is new keeps a list sorted. */
  lemma {:induction false} InsertBySerialSorted(rows: seq<Row>, x: Row)
    requires SortedBySerial(rows)
    requires forall y :: y in rows ==> y.issue.serialNumber != x.issue.serialNumber
    ensures SortedBySerial(InsertBySerial(rows, x))
  {
    if rows != [] {
      TailAbove(rows, x);
      if x.issue.serialNumber < rows[0].issue.serialNumber {
        forall y | y in rows ensures x.issue.serialNumber < y.issue.serialNumber {
          TailAbove(rows, y);
          assert y == rows[0] || y in rows[1..] by { assert rows == [rows[0]] + rows[1..]; }
        }
      } else {
        var rest := InsertBySerial(rows[1..], x);
        assert forall y :: y in rows[1..] ==> y in rows by { assert rows == [rows[0]] + rows[1..]; }
        InsertBySerialSorted(rows[1..], x);
        assert rows[0] in rows;
        forall y | y in rest ensures rows[0].issue.serialNumber < y.issue.serialNumber {
          TailAbove(rows, y);
        }
      }
    }
  }

  /** A store whose serial numbers are distinct answers every query: some result exists. */
  lemma {:induction false} QueryResultExists(store: map<IssueId, Issue>, f: IssueFilters)
    requires DistinctSerials(store)
    ensures exists rows :: IsQueryResult(store, f, rows)
    decreases |store|
  {
    if store == map[] {
      assert IsQueryResult(store, f, []);
    } else {
      var id :| id in store;
      var smaller := map k | k in store && k != id :: store[k];
      assert |smaller| < |store| by {
        assert smaller.Keys == store.Keys - {id};
      }
      QueryResultExists(smaller, f);
      var rest :| IsQueryResult(smaller, f, rest);
      var x := Row(id, store[id]);
      var rows := if MatchesQuery(store[id], f) then InsertBySerial(rest, x) else rest;
      forall y | y in rest ensures y.id in smaller && y.issue.serialNumber != x.issue.serialNumber {
        var k :| 0 <= k < |rest| && rest[k] == y;
      }
      InsertBySerialSorted(rest, x);
      forall k | 0 <= k < |rows|
        ensures rows[k].id in store && store[rows[k].id] == rows[k].issue && MatchesQuery(rows[k].issue, f)
      {
        assert rows[k] in rows;
        if rows[k] != x {
          var j :| 0 <= j < |rest| && rest[j] == rows[k];
        }
      }
      forall i | i in store && MatchesQuery(store[i], f) ensures Row(i, store[i]) in rows {
        if i != id {
          assert i in smaller;
        }
      }
      assert IsQueryResult(store, f, rows);
    }
  }

  /** Every store that keeps the invariant answers every query with exactly one result. */
  lemma StoreQueryResult(issues: map<IssueId, Issue>, counter: nat, activities: map<IssueId, seq<Activity>>,
                         clock: Time, owner: map<nat, IssueId>, f: IssueFilters)
    requires StoreInvariant(issues, counter, activities, clock, owner)
    ensures exists rows :: IsQueryResult(issues, f, rows)
    ensures forall a, b :: IsQueryResult(issues, f, a) && IsQueryResult(issues, f, b) ==> a == b
  {
    forall id1, id2 | id1 in issues && id2 in issues && id1 != id2
      ensures issues[id1].serialNumber != issues[id2].serialNumber
    {
      SerialsDistinct(issues, counter, owner, id1, id2);
    }
    QueryResultExists(issues, f);
    forall a, b | IsQueryResult(issues, f, a) && IsQueryResult(issues, f, b) ensures a == b {
      QueryResultUnique(issues, f, a, b);
    }
  }

  /** The elements of a duplicate-free list number at most the elements of any set containing them. */
  lemma {:induction false} NoDupBound<T>(xs: seq<T>, universe: set<T>)
    requires NoDup(xs)
    requires forall k :: 0 <= k < |xs| ==> xs[k] in universe
    ensures |xs| <= |universe|
  {
    if xs != [] {
      forall k | 0 <= k < |xs| - 1 ensures xs[1..][k] in universe - {xs[0]} {
        assert xs[1..][k] == xs[k + 1] != xs[0];
      }
      NoDupBound(xs[1..], universe - {xs[0]});
    }
  }

  lemma {:induction false} NoDupSetSize<T>(xs: seq<T>)
    requires NoDup(xs)
    ensures |set x | x in xs| == |xs|
  {
    if xs != [] {
      NoDupSetSize(xs[1..]);
      assert (set x | x in xs) == {xs[0]} + (set x | x in xs[1..]);
      assert xs[0] !in xs[1..] by {
        forall k | 0 <= k < |xs| - 1 ensures xs[1..][k] != xs[0] {
          assert xs[1..][k] == xs[k + 1];
        }
      }
    }
  }

  /** A duplicate-free list as long as the full option list names every option. */
  lemma FullDistinctListCoversAll<T>(selected: seq<T>, all: seq<T>, x: T)
    requires NoDup(selected) && NoDup(all) && x in all
    requires forall k :: 0 <= k < |selected| ==> selected[k] in all
    requires |selected| >= |all|
    ensures x in selected
  {
    if x !in selected {
      var rest := (set y | y in all) - {x};
      NoDupSetSize(all);
      NoDupBound(selected, rest);
    }
  }

  /**
   * For a list without repeats the length test is exact: a list the query ignores
   * (empty, or as long as the option list) is one that holds every option.
   */
  lemma LengthTestIsMembership(f: IssueFilters, i: Issue)
    requires NoDup(f.categories) && NoDup(f.statuses) && NoDup(f.priorities)
    ensures Admits(f.categories, |AllCategories|, i.category) <==> (f.categories == [] || i.category in f.categories)
    ensures Admits(f.statuses, |AllStatuses|, i.status) <==> (f.statuses == [] || i.status in f.statuses)
    ensures Admits(f.priorities, |AllPriorities|, i.priority) <==> (f.priorities == [] || i.priority in f.priorities)
  {
    OptionListsComplete();
    if |f.categories| >= |AllCategories| {
      FullDistinctListCoversAll(f.categories, AllCategories, i.category);
    }
    if |f.statuses| >= |AllStatuses| {
      FullDistinctListCoversAll(f.statuses, AllStatuses, i.status);
    }
    if |f.priorities| >= |AllPriorities| {
      FullDistinctListCoversAll(f.priorities, AllPriorities, i.priority);
    }
  }

  /** Selecting every option is the same query as selecting none. */
  lemma FullListIsNoFilter(i: Issue, f: IssueFilters)
    ensures MatchesQuery(i, f.(categories := AllCategories)) == MatchesQuery(i, f.(categories := []))
    ensures MatchesQuery(i, f.(statuses := AllStatuses)) == MatchesQuery(i, f.(statuses := []))
    ensures MatchesQuery(i, f.(priorities := AllPriorities)) == MatchesQuery(i, f.(priorities := []))
  {
  }

  /** Archived and active issues are disjoint views: the flag must equal `showArchived`. */
  lemma ArchivedPartition(i: Issue, f: IssueFilters)
    ensures MatchesQuery(i, f) ==> (i.isArchived <==> IsSet(f.showArchived))
    ensures MatchesQuery(i, f) ==> !MatchesQuery(i, f.(showArchived := Some(!IsSet(f.showArchived))))
  {
  }

  /** Archiving and then unarchiving puts an active issue back in every view it was in. */
  lemma ArchiveRoundTrip(i: Issue, f: IssueFilters, t1: Time, t2: Time)
    requires !i.isArchived
    ensures MatchesQuery(WithArchived(WithArchived(i, true, t1), false, t2), f) == MatchesQuery(i, f)
    ensures MatchesQuery(WithArchived(i, true, t1), f) ==> IsSet(f.showArchived)
  {
  }

  /** The text the search looks in: description, customer name and assignee, blanks for missing ones. */
  function SearchTarget(i: Issue): string {
    i.description + " " + i.customerName.GetOr("") + " " + i.assignee.GetOr("")
  }

  /** The case-insensitive substring test of the search box. */
  predicate SearchHit(i: Issue, search: string) {
    Contains(Lower(SearchTarget(i)), Lower(search))
  }

  function FilterHits(rows: seq<Row>, search: string): (r: seq<Row>)
    ensures |r| <= |rows|
    ensures forall x :: x in r <==> x in rows && SearchHit(x.issue, search)
  {
    if rows == [] then []
    else
      var rest := FilterHits(rows[1..], search);
      assert forall x :: x in rows <==> x == rows[0] || x in rows[1..] by { assert rows == [rows[0]] + rows[1..]; }
      if SearchHit(rows[0].issue, search) then [rows[0]] + rest else rest
  }

  /** Filtering keeps the serial-number order. */
  lemma {:induction false} FilterHitsSorted(rows: seq<Row>, search: string)
    requires SortedBySerial(rows)
    ensures SortedBySerial(FilterHits(rows, search))
  {
    if rows != [] {
      var rest := FilterHits(rows[1..], search);
      forall x | x in rest ensures rows[0].issue.serialNumber < x.issue.serialNumber {
        TailAbove(rows, x);
      }
      TailAbove(rows, rows[0]);
      FilterHitsSorted(rows[1..], search);
    }
  }

  /** Lines 80-85: with a non-empty search keep the hits, in order; otherwise keep everything. */
  function ApplySearch(rows: seq<Row>, search: Option<string>): (r: seq<Row>)
    ensures !Truthy(search) ==> r == rows
    ensures Truthy(search) ==> forall x :: x in r <==> x in rows && SearchHit(x.issue, search.value)
  {
    if Truthy(search) then FilterHits(rows, search.value) else rows
  }

  lemma ApplySearchSorted(rows: seq<Row>, search: Option<string>)
    requires SortedBySerial(rows)
    ensures SortedBySerial(ApplySearch(rows, search))
  {
    if Truthy(search) {
      FilterHitsSorted(rows, search.value);
    }
  }

  /**
   * What a subscriber receives: issues that pass every filter and the search, by serial
   * number, and every stored issue that passes them.
   */
  lemma SubscriptionDelivers(store: map<IssueId, Issue>, f: IssueFilters, rows: seq<Row>, id: IssueId)
    requires IsQueryResult(store, f, rows)
    ensures SortedBySerial(ApplySearch(rows, f.search))
    ensures id in store ==>
      (Row(id, store[id]) in ApplySearch(rows, f.search) <==>
        MatchesQuery(store[id], f) && (!Truthy(f.search) || SearchHit(store[id], f.search.value)))
  {
    ApplySearchSorted(rows, f.search);
    if id in store && Row(id, store[id]) in rows {
      var k :| 0 <= k < |rows| && rows[k] == Row(id, store[id]);
    }
  }

  lemma LowerIdempotent(s: string)
    ensures Lower(Lower(s)) == Lower(s)
  {
  }

  /** The search ignores case: searching for the lower-cased text finds the same issues. */
  lemma SearchIgnoresCase(i: Issue, search: string)
    ensures SearchHit(i, search) == SearchHit(i, Lower(search))
  {
    LowerIdempotent(search);
  }

  /** An exact occurrence is always found. */
  lemma ExactOccurrenceIsHit(i: Issue, search: string)
    requires Contains(SearchTarget(i), search)
    ensures SearchHit(i, search)
  {
    var t := SearchTarget(i);
    var k :| 0 <= k <= |t| - |search| && OccursAt(t, search, k);
    LowerSlice(t, k, k + |search|);
    assert OccursAt(Lower(t), Lower(search), k);
  }

  /** "acme" finds an issue whose customer is "Acme Corp", whatever its description. */
  lemma SearchFindsCustomer(i: Issue)
    requires i.customerName == Some("Acme Corp")
    ensures SearchHit(i, "acme")
  {
    var t := SearchTarget(i);
    var k := |i.description| + 1;
    assert t[k..k + 4] == "Acme";
    LowerSlice(t, k, k + 4);
    assert Lower("Acme") == "acme";
    assert OccursAt(Lower(t), Lower("acme"), k);
  }
}

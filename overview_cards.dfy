/**
 * The four summary cards (src/components/OverviewCards.tsx): open, critical, closed and
 * active-assignee figures over the issues currently listed.
 */
module OverviewCards {
  import opened Wrappers
  import opened IssueTypes
  import opened IssueOptions
  import opened IssueMetrics

  /** `issue.assignee` is truthy: a non-empty name. */
  predicate HasOwner(i: Issue) {
    Truthy(i.assignee)
  }

  /** `issue.assignee === null`. */
  predicate IsUnassigned(i: Issue) {
    i.assignee.None?
  }

  /** An assignee that is the empty string: neither truthy nor `null`. */
  predicate HasBlankOwner(i: Issue) {
    i.assignee == Some("")
  }

  /** The distinct truthy assignee names, as the `Set` collects them. */
  function OwnerNames(xs: seq<Issue>): set<string> {
    set i | i in xs && HasOwner(i) :: i.assignee.value
  }

  /** The Active assignees value: the size of that set. */
  function ActiveAssignees(xs: seq<Issue>): nat {
    |OwnerNames(xs)|
  }

  /** The Active assignees helper: how many issues hold `null`. */
  function UnassignedCount(xs: seq<Issue>): nat {
    |Filter(xs, IsUnassigned)|
  }

  /**
   * Every issue is in exactly one of three groups: with an owner, `null`, or the empty
   * name; the last group is counted by neither figure of the card.
   */
  lemma {:induction false} OwnerGroupsPartition(xs: seq<Issue>)
    ensures |Filter(xs, HasOwner)| + |Filter(xs, IsUnassigned)| + |Filter(xs, HasBlankOwner)| == |xs|
  {
    if xs != [] {
      OwnerGroupsPartition(xs[..|xs| - 1]);
    }
  }

  /** One more issue adds its name to the set when it has one. */
  lemma OwnerNamesStep(xs: seq<Issue>)
    requires xs != []
    ensures var last := xs[|xs| - 1];
      OwnerNames(xs) == OwnerNames(xs[..|xs| - 1]) + (if HasOwner(last) then {last.assignee.value} else {})
  {
    assert xs == xs[..|xs| - 1] + [xs[|xs| - 1]];
  }

  /** No more names than issues with an owner, and none exactly when no issue has one. */
  lemma {:induction false} ActiveAssigneesBounds(xs: seq<Issue>)
    ensures ActiveAssignees(xs) <= |Filter(xs, HasOwner)|
    ensures ActiveAssignees(xs) == 0 <==> Filter(xs, HasOwner) == []
  {
    if xs != [] {
      ActiveAssigneesBounds(xs[..|xs| - 1]);
      OwnerNamesStep(xs);
      var last := xs[|xs| - 1];
      if HasOwner(last) {
        assert last.assignee.value in OwnerNames(xs);
      }
    }
  }

  /** When every owner comes from the directory, at most 17 people are active. */
  lemma ActiveAssigneesAtMostDirectory(xs: seq<Issue>)
    requires forall i :: i in xs && HasOwner(i) ==> i.assignee.value in Names(AssignableUsers)
    ensures ActiveAssignees(xs) <= |AssignableUsers|
  {
    var names := set n | n in Names(AssignableUsers);
    assert OwnerNames(xs) <= names;
    SetOfListSize(Names(AssignableUsers));
    SubsetSize(OwnerNames(xs), names);
  }

  lemma {:induction false} SetOfListSize(ns: seq<string>)
    ensures |set n | n in ns| <= |ns|
  {
    if ns != [] {
      SetOfListSize(ns[1..]);
      assert (set n | n in ns) == {ns[0]} + (set n | n in ns[1..]);
    }
  }

  lemma SubsetSize(a: set<string>, b: set<string>)
    requires a <= b
    ensures |a| <= |b|
  {
    assert b == a + (b - a);
  }

  /** A card: its figure and the figures of its helper line. */
  datatype Card = Card(title: string, value: nat, helper: seq<nat>)

  /** The cards in display order; the completion percentage of the third is not modelled. */
  function Cards(xs: seq<Issue>): seq<Card> {
    var s := SnapshotOf(xs);
    [ Card("Open portfolio", s.open, [s.total]),
      Card("Critical at risk", s.critical, [s.atRisk, s.breached]),
      Card("Closed this period", s.closed, []),
      Card("Active assignees", ActiveAssignees(xs), [UnassignedCount(xs)]) ]
  }

  /**
   * The cards agree with each other: open and closed make up the total shown under the
   * open figure, critical and the SLA figures are parts of the open figure, and active
   * assignees plus unassigned never exceed the number of issues.
   */
  lemma CardsConsistent(xs: seq<Issue>)
    ensures var c := Cards(xs);
      && c[0].value + c[2].value == c[0].helper[0] == |xs|
      && c[1].value <= c[0].value
      && c[1].helper[0] + c[1].helper[1] <= c[0].value
      && c[3].value + c[3].helper[0] <= |xs|
  {
    SnapshotCounts(xs);
    ActiveAssigneesBounds(xs);
    OwnerGroupsPartition(xs);
  }
}

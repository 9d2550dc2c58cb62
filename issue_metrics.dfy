/**
 * The dashboard figures (src/utils/issueMetrics.ts): issues grouped by status and by
 * category, and the snapshot of open, closed, critical and SLA counts.
 */
module IssueMetrics {
  import opened IssueTypes
  import opened IssueOptions
  import opened Text

  // ---------------------------------------------------------------------------
  // Filtering
  // ---------------------------------------------------------------------------

  /** `xs.filter(keep)`, stated from the right so that it grows one issue at a time. */
  function Filter(xs: seq<Issue>, keep: Issue -> bool): (r: seq<Issue>)
    ensures |r| <= |xs|
    ensures forall x :: x in r <==> x in xs && keep(x)
  {
    if xs == [] then []
    else
      var init := xs[..|xs| - 1];
      assert xs == init + [xs[|xs| - 1]];
      Filter(init, keep) + (if keep(xs[|xs| - 1]) then [xs[|xs| - 1]] else [])
  }

  /** Filtering a prefix one issue longer adds that issue when it passes. */
  lemma FilterStep(xs: seq<Issue>, k: nat, p: Issue -> bool)
    requires k < |xs|
    ensures Filter(xs[..k + 1], p) == Filter(xs[..k], p) + (if p(xs[k]) then [xs[k]] else [])
  {
    assert xs[..k + 1][..k] == xs[..k];
  }

  /** An issue satisfies at most one of two exclusive tests, so the two filters together are no longer than the input. */
  lemma {:induction false} FilterDisjoint(xs: seq<Issue>, p: Issue -> bool, q: Issue -> bool)
    requires forall i :: !(p(i) && q(i))
    ensures |Filter(xs, p)| + |Filter(xs, q)| <= |xs|
  {
    if xs != [] {
      FilterDisjoint(xs[..|xs| - 1], p, q);
    }
  }

  /** A test and its negation split the input exactly. */
  lemma {:induction false} FilterComplement(xs: seq<Issue>, p: Issue -> bool, q: Issue -> bool)
    requires forall i :: q(i) == !p(i)
    ensures |Filter(xs, p)| + |Filter(xs, q)| == |xs|
  {
    if xs != [] {
      FilterComplement(xs[..|xs| - 1], p, q);
    }
  }

  function HasStatus(s: Status): Issue -> bool {
    (i: Issue) => i.status == s
  }

  function HasCategory(c: Category): Issue -> bool {
    (i: Issue) => i.category == c
  }

  /** Not Closed: Resolved issues still count as open. */
  predicate IsOpen(i: Issue) {
    i.status != Closed
  }

  predicate IsClosed(i: Issue) {
    i.status == Closed
  }

  predicate IsCritical(i: Issue) {
    i.priority == Critical
  }

  predicate IsBreached(i: Issue) {
    i.slaBreachRisk == Breached
  }

  predicate IsAtRisk(i: Issue) {
    i.slaBreachRisk == AtRisk
  }

  /** The issues with status `s`, in input order. */
  function StatusBucket(xs: seq<Issue>, s: Status): seq<Issue> {
    Filter(xs, HasStatus(s))
  }

  /** The issues of category `c`, in input order. */
  function CategoryBucket(xs: seq<Issue>, c: Category): seq<Issue> {
    Filter(xs, HasCategory(c))
  }

  /** Every issue is in exactly one status bucket: the five bucket sizes add up to the input length. */
  lemma {:induction false} StatusBucketsPartition(xs: seq<Issue>)
    ensures |StatusBucket(xs, New)| + |StatusBucket(xs, InProgress)| + |StatusBucket(xs, AwaitingCustomer)|
          + |StatusBucket(xs, Resolved)| + |StatusBucket(xs, Closed)| == |xs|
  {
    if xs != [] {
      StatusBucketsPartition(xs[..|xs| - 1]);
    }
  }

  // ---------------------------------------------------------------------------
  // Grouping
  // ---------------------------------------------------------------------------

  /** The status record: all five keys, each holding its bucket. */
  function StatusGroups(xs: seq<Issue>): map<Status, seq<Issue>> {
    map s | s in AllStatuses :: StatusBucket(xs, s)
  }

  /**
   * groupByStatus: starts from a record with all five statuses mapped to [] and appends
   * each issue to the entry of its status.
   */
  method GroupByStatus(issues: seq<Issue>) returns (acc: map<Status, seq<Issue>>)
    ensures forall s: Status :: s in acc && acc[s] == StatusBucket(issues, s)
    ensures acc == StatusGroups(issues)
  {
    acc := map[New := [], InProgress := [], AwaitingCustomer := [], Resolved := [], Closed := []];
    forall s: Status ensures s in acc && acc[s] == StatusBucket(issues[..0], s) {
      match s
      case New =>
      case InProgress =>
      case AwaitingCustomer =>
      case Resolved =>
      case Closed =>
    }
    var k := 0;
    while k < |issues|
      invariant 0 <= k <= |issues|
      invariant forall s: Status :: s in acc && acc[s] == StatusBucket(issues[..k], s)
    {
      var issue := issues[k];
      forall s ensures StatusBucket(issues[..k + 1], s) == StatusBucket(issues[..k], s) + (if issue.status == s then [issue] else []) {
        FilterStep(issues, k, HasStatus(s));
      }
      acc := acc[issue.status := if issue.status in acc then acc[issue.status] + [issue] else [issue]];
      k := k + 1;
    }
    assert issues[..k] == issues;
    OptionListsComplete();
  }

  /** The categories of `xs` in order of first occurrence: the key order of the category record. */
  function CategoryOrder(xs: seq<Issue>): (r: seq<Category>)
    ensures NoDup(r)
  {
    if xs == [] then []
    else
      var init := CategoryOrder(xs[..|xs| - 1]);
      var c := xs[|xs| - 1].category;
      if c in init then init else init + [c]
  }

  /** A category is a key exactly when it has at least one issue. */
  lemma {:induction false} CategoryOrderMembers(xs: seq<Issue>, c: Category)
    ensures c in CategoryOrder(xs) <==> CategoryBucket(xs, c) != []
  {
    if xs != [] {
      CategoryOrderMembers(xs[..|xs| - 1], c);
    }
  }

  /** A record with its keys in insertion order, as JavaScript objects enumerate them. */
  datatype Grouping = Grouping(keys: seq<Category>, buckets: map<Category, seq<Issue>>)

  function CategoryGroups(xs: seq<Issue>): Grouping {
    var keys := CategoryOrder(xs);
    Grouping(keys, map c | c in keys :: CategoryBucket(xs, c))
  }

  /** A grouping with the first-occurrence keys and each key's bucket is the category record. */
  lemma CategoryGroupsUnique(xs: seq<Issue>, g: Grouping)
    requires g.keys == CategoryOrder(xs)
    requires forall c :: c in g.buckets <==> c in g.keys
    requires forall c :: c in g.buckets ==> g.buckets[c] == CategoryBucket(xs, c)
    ensures g == CategoryGroups(xs)
  {
  }

  /** One more issue adds its category at the end of the key order, unless already there. */
  lemma CategoryOrderStep(xs: seq<Issue>, k: nat)
    requires k < |xs|
    ensures CategoryOrder(xs[..k + 1]) ==
      (var init := CategoryOrder(xs[..k]); if xs[k].category in init then init else init + [xs[k].category])
  {
    assert xs[..k + 1][..k] == xs[..k];
  }

  /** One step of groupByCategory keeps the record equal to the grouping of the prefix read so far. */
  lemma CategoryGroupingStep(xs: seq<Issue>, k: nat, keys: seq<Category>, buckets: map<Category, seq<Issue>>)
    requires k < |xs|
    requires keys == CategoryOrder(xs[..k])
    requires forall c :: c in buckets <==> c in keys
    requires forall c :: c in buckets ==> buckets[c] == CategoryBucket(xs[..k], c)
    ensures var c := xs[k].category;
      var keys' := if c in buckets then keys else keys + [c];
      var created := if c in buckets then buckets else buckets[c := []];
      var buckets' := created[c := created[c] + [xs[k]]];
      && keys' == CategoryOrder(xs[..k + 1])
      && (forall c' :: c' in buckets' <==> c' in keys')
      && (forall c' :: c' in buckets' ==> buckets'[c'] == CategoryBucket(xs[..k + 1], c'))
  {
    CategoryOrderStep(xs, k);
    CategoryOrderMembers(xs[..k], xs[k].category);
    forall c' ensures CategoryBucket(xs[..k + 1], c') == CategoryBucket(xs[..k], c') + (if xs[k].category == c' then [xs[k]] else []) {
      FilterStep(xs, k, HasCategory(c'));
    }
  }

  /**
   * groupByCategory: starts from an empty record, creates a category's entry the first
   * time one of its issues is seen, and pushes each issue onto its entry.
   */
  method GroupByCategory(issues: seq<Issue>) returns (g: Grouping)
    ensures g.keys == CategoryOrder(issues) && NoDup(g.keys)
    ensures forall c :: c in g.buckets <==> c in g.keys
    ensures forall c :: c in g.buckets ==> g.buckets[c] == CategoryBucket(issues, c) && g.buckets[c] != []
    ensures g == CategoryGroups(issues)
  {
    var keys: seq<Category> := [];
    var buckets: map<Category, seq<Issue>> := map[];
    var k := 0;
    while k < |issues|
      invariant 0 <= k <= |issues|
      invariant keys == CategoryOrder(issues[..k])
      invariant forall c :: c in buckets <==> c in keys
      invariant forall c :: c in buckets ==> buckets[c] == CategoryBucket(issues[..k], c)
    {
      CategoryGroupingStep(issues, k, keys, buckets);
      var issue := issues[k];
      if issue.category !in buckets {
        keys := keys + [issue.category];
        buckets := buckets[issue.category := []];
      }
      buckets := buckets[issue.category := buckets[issue.category] + [issue]];
      k := k + 1;
    }
    assert issues[..k] == issues;
    g := Grouping(keys, buckets);
    CategoryGroupsUnique(issues, g);
    forall c | c in g.buckets ensures g.buckets[c] != [] {
      CategoryOrderMembers(issues, c);
    }
  }

  // ---------------------------------------------------------------------------
  // Snapshot
  // ---------------------------------------------------------------------------

  datatype Snapshot = Snapshot(
    total: nat,
    open: nat,
    closed: nat,
    critical: nat,
    byStatus: map<Status, seq<Issue>>,
    byCategory: Grouping,
    breached: nat,
    atRisk: nat)

  function OpenIssues(xs: seq<Issue>): seq<Issue> {
    Filter(xs, IsOpen)
  }

  /** The snapshot getIssueSnapshot returns, as a value. */
  function SnapshotOf(xs: seq<Issue>): Snapshot {
    var open := OpenIssues(xs);
    Snapshot(
      |xs|,
      |open|,
      |StatusBucket(xs, Closed)|,
      |Filter(open, IsCritical)|,
      StatusGroups(xs),
      CategoryGroups(xs),
      |Filter(open, IsBreached)|,
      |Filter(open, IsAtRisk)|)
  }

  /** The counts of a snapshot are consistent: open and closed split the total; critical and SLA counts are among the open. */
  lemma SnapshotCounts(xs: seq<Issue>)
    ensures var s := SnapshotOf(xs);
      && s.open + s.closed == s.total
      && s.critical <= s.open
      && s.breached + s.atRisk <= s.open
      && s.closed == |Filter(xs, IsClosed)|
  {
    FilterComplement(xs, HasStatus(Closed), IsOpen);
    assert StatusBucket(xs, Closed) == Filter(xs, IsClosed) by {
      FilterSameTest(xs, HasStatus(Closed), IsClosed);
    }
    FilterDisjoint(OpenIssues(xs), IsBreached, IsAtRisk);
  }

  /** Two tests that agree on every issue filter alike. */
  lemma {:induction false} FilterSameTest(xs: seq<Issue>, p: Issue -> bool, q: Issue -> bool)
    requires forall i :: p(i) == q(i)
    ensures Filter(xs, p) == Filter(xs, q)
  {
    if xs != [] {
      FilterSameTest(xs[..|xs| - 1], p, q);
    }
  }

  /** getIssueSnapshot. */
  method GetIssueSnapshot(issues: seq<Issue>) returns (r: Snapshot)
    ensures r == SnapshotOf(issues)
    ensures r.total == |issues| && r.open + r.closed == r.total
    ensures r.critical <= r.open && r.breached + r.atRisk <= r.open
    ensures forall s: Status :: s in r.byStatus
  {
    var byStatus := GroupByStatus(issues);
    var byCategory := GroupByCategory(issues);
    var openIssues := Filter(issues, IsOpen);
    var criticalIssues := Filter(openIssues, IsCritical);
    var slaBreaches := Filter(openIssues, IsBreached);
    var atRisk := Filter(openIssues, IsAtRisk);
    r := Snapshot(|issues|, |openIssues|, |byStatus[Closed]|, |criticalIssues|, byStatus, byCategory,
                  |slaBreaches|, |atRisk|);
    SnapshotCounts(issues);
  }
}

/**
 * The insights page (src/pages/InsightsPage.tsx): the open/closed bars per product line
 * and the status distribution, both read off the snapshot of the default issue list.
 */
module InsightsPage {
  import opened Wrappers
  import opened Text
  import opened IssueTypes
  import opened IssueOptions
  import opened IssueService
  import opened UseIssues
  import opened IssueMetrics

  /** One bar group: a product line with its open (not Closed) and Closed counts. */
  datatype CategoryRow = CategoryRow(category: Category, open: nat, closed: nat)

  /** `Object.entries(byCategory).map(...)`: one row per key, in key order. */
  function EntriesRows(keys: seq<Category>, buckets: map<Category, seq<Issue>>): (r: seq<CategoryRow>)
    requires forall c :: c in keys ==> c in buckets
    ensures |r| == |keys|
  {
    if keys == [] then []
    else
      var b := buckets[keys[0]];
      [CategoryRow(keys[0], |Filter(b, IsOpen)|, |Filter(b, IsClosed)|)] + EntriesRows(keys[1..], buckets)
  }

  /** `categoryData`. */
  function CategoryData(issues: seq<Issue>): seq<CategoryRow> {
    var g := SnapshotOf(issues).byCategory;
    EntriesRows(g.keys, g.buckets)
  }

  /** The issues whose category is one of `cs`. */
  function InCategories(cs: seq<Category>): Issue -> bool {
    (i: Issue) => i.category in cs
  }

  /** The sizes of the buckets of `cs`, added up. */
  function BucketTotal(xs: seq<Issue>, cs: seq<Category>): nat {
    if cs == [] then 0 else |CategoryBucket(xs, cs[0])| + BucketTotal(xs, cs[1..])
  }

  function RowsTotal(rows: seq<CategoryRow>): nat {
    if rows == [] then 0 else rows[0].open + rows[0].closed + RowsTotal(rows[1..])
  }

  /** Filtering by two tests that never both hold, or by either, adds up. */
  lemma {:induction false} FilterUnion(xs: seq<Issue>, p: Issue -> bool, q: Issue -> bool, either: Issue -> bool)
    requires forall i :: either(i) == (p(i) || q(i)) && !(p(i) && q(i))
    ensures |Filter(xs, either)| == |Filter(xs, p)| + |Filter(xs, q)|
  {
    if xs != [] {
      FilterUnion(xs[..|xs| - 1], p, q, either);
    }
  }

  /** Over distinct categories, the bucket sizes add up to the issues in one of them. */
  lemma {:induction false} BucketTotalCounts(xs: seq<Issue>, cs: seq<Category>)
    requires NoDup(cs)
    ensures BucketTotal(xs, cs) == |Filter(xs, InCategories(cs))|
  {
    if cs == [] {
      FilterNoneIsEmpty(xs, InCategories(cs));
    } else {
      assert NoDup(cs[1..]) by {
        forall a, b | 0 <= a < b < |cs[1..]| ensures cs[1..][a] != cs[1..][b] {
          assert cs[1..][a] == cs[a + 1] && cs[1..][b] == cs[b + 1];
        }
      }
      BucketTotalCounts(xs, cs[1..]);
      forall i: Issue ensures InCategories(cs)(i) == (HasCategory(cs[0])(i) || InCategories(cs[1..])(i))
                                && !(HasCategory(cs[0])(i) && InCategories(cs[1..])(i)) {
        assert cs == [cs[0]] + cs[1..];
        if i.category in cs[1..] {
          var k :| 0 <= k < |cs[1..]| && cs[1..][k] == i.category;
          assert cs[k + 1] == i.category && cs[0] != cs[k + 1];
        }
      }
      FilterUnion(xs, HasCategory(cs[0]), InCategories(cs[1..]), InCategories(cs));
    }
  }

  /** Each row's two bars add up to its bucket. */
  lemma {:induction false} RowsTotalIsBucketTotal(xs: seq<Issue>, keys: seq<Category>, buckets: map<Category, seq<Issue>>)
    requires forall c :: c in keys ==> c in buckets && buckets[c] == CategoryBucket(xs, c)
    ensures RowsTotal(EntriesRows(keys, buckets)) == BucketTotal(xs, keys)
  {
    if keys != [] {
      var b := buckets[keys[0]];
      FilterComplement(b, IsOpen, IsClosed);
      RowsTotalIsBucketTotal(xs, keys[1..], buckets);
    }
  }

  /** A test no issue passes filters to nothing. */
  lemma {:induction false} FilterNoneIsEmpty(xs: seq<Issue>, p: Issue -> bool)
    requires forall x :: x in xs ==> !p(x)
    ensures Filter(xs, p) == []
  {
    if xs != [] {
      FilterNoneIsEmpty(xs[..|xs| - 1], p);
    }
  }

  /** Each bar group's open and closed add up to the issues of its product line. */
  lemma CategoryDataRows(issues: seq<Issue>)
    ensures var rows := CategoryData(issues);
      forall k :: 0 <= k < |rows| ==>
        rows[k].open + rows[k].closed == |CategoryBucket(issues, rows[k].category)|
        && rows[k].closed == |Filter(CategoryBucket(issues, rows[k].category), IsClosed)|
  {
    var g := CategoryGroups(issues);
    RowsOfEntries(issues, g.keys, g.buckets);
  }

  /** There is a bar group for a product line exactly when it has issues. */
  lemma CategoryDataCovers(issues: seq<Issue>, c: Category)
    ensures var rows := CategoryData(issues);
      CategoryBucket(issues, c) != [] <==> exists k :: 0 <= k < |rows| && rows[k].category == c
  {
    var g := CategoryGroups(issues);
    var rows := CategoryData(issues);
    RowsOfEntries(issues, g.keys, g.buckets);
    CategoryOrderMembers(issues, c);
    if c in g.keys {
      var k :| 0 <= k < |g.keys| && g.keys[k] == c;
      assert rows[k].category == c;
    }
  }

  /** All the bars together count every issue once. */
  lemma CategoryDataTotal(issues: seq<Issue>)
    ensures RowsTotal(CategoryData(issues)) == |issues|
  {
    var g := CategoryGroups(issues);
    RowsTotalIsBucketTotal(issues, g.keys, g.buckets);
    BucketTotalCounts(issues, g.keys);
    var all := InCategories(g.keys);
    var none := (i: Issue) => !all(i);
    forall i | i in issues ensures all(i) {
      assert i in CategoryBucket(issues, i.category);
      CategoryOrderMembers(issues, i.category);
    }
    FilterNoneIsEmpty(issues, none);
    FilterComplement(issues, all, none);
  }

  /** Row `k` of the entries is the `k`-th key with its bucket's two counts. */
  lemma {:induction false} RowsOfEntries(xs: seq<Issue>, keys: seq<Category>, buckets: map<Category, seq<Issue>>)
    requires forall c :: c in keys ==> c in buckets && buckets[c] == CategoryBucket(xs, c)
    ensures var rows := EntriesRows(keys, buckets);
      forall k :: 0 <= k < |rows| ==>
        && rows[k].category == keys[k]
        && rows[k].open + rows[k].closed == |CategoryBucket(xs, keys[k])|
        && rows[k].closed == |Filter(CategoryBucket(xs, keys[k]), IsClosed)|
  {
    if keys != [] {
      FilterComplement(buckets[keys[0]], IsOpen, IsClosed);
      RowsOfEntries(xs, keys[1..], buckets);
    }
  }

  /** One slice of the pie: a status name and how many issues have it. */
  datatype StatusEntry = StatusEntry(name: string, value: nat)

  function EntriesStatus(keys: seq<Status>, groups: map<Status, seq<Issue>>): (r: seq<StatusEntry>)
    requires forall s :: s in keys ==> s in groups
    ensures |r| == |keys|
  {
    if keys == [] then []
    else [StatusEntry(StatusLabel(keys[0]), |groups[keys[0]]|)] + EntriesStatus(keys[1..], groups)
  }

  /** `statusData`: the five statuses in the order of the record groupByStatus starts from. */
  function StatusData(issues: seq<Issue>): seq<StatusEntry> {
    EntriesStatus(AllStatuses, SnapshotOf(issues).byStatus)
  }

  function EntriesTotal(es: seq<StatusEntry>): nat {
    if es == [] then 0 else es[0].value + EntriesTotal(es[1..])
  }

  /** The entries of a record holding the five statuses, in the record's order. */
  lemma EntriesOfAllStatuses(groups: map<Status, seq<Issue>>)
    requires forall s :: s in AllStatuses ==> s in groups
    ensures EntriesStatus(AllStatuses, groups) ==
      [ StatusEntry("New", |groups[New]|), StatusEntry("In Progress", |groups[InProgress]|),
        StatusEntry("Awaiting Customer", |groups[AwaitingCustomer]|), StatusEntry("Resolved", |groups[Resolved]|),
        StatusEntry("Closed", |groups[Closed]|) ]
  {
    var g := groups;
    assert EntriesStatus([Closed], g) == [StatusEntry("Closed", |g[Closed]|)] by {
      assert [Closed][1..] == [];
    }
    assert EntriesStatus([Resolved, Closed], g) == [StatusEntry("Resolved", |g[Resolved]|)] + EntriesStatus([Closed], g) by {
      assert [Resolved, Closed][1..] == [Closed];
    }
    assert EntriesStatus([AwaitingCustomer, Resolved, Closed], g) ==
      [StatusEntry("Awaiting Customer", |g[AwaitingCustomer]|)] + EntriesStatus([Resolved, Closed], g) by {
      assert [AwaitingCustomer, Resolved, Closed][1..] == [Resolved, Closed];
    }
    assert EntriesStatus([InProgress, AwaitingCustomer, Resolved, Closed], g) ==
      [StatusEntry("In Progress", |g[InProgress]|)] + EntriesStatus([AwaitingCustomer, Resolved, Closed], g) by {
      assert [InProgress, AwaitingCustomer, Resolved, Closed][1..] == [AwaitingCustomer, Resolved, Closed];
    }
    assert AllStatuses[1..] == [InProgress, AwaitingCustomer, Resolved, Closed];
  }

  /**
   * The pie always has the five slices in the record's order, every status shown even
   * with no issue, each slice the number of issues with that status.
   */
  lemma StatusDataShape(issues: seq<Issue>)
    ensures StatusData(issues) ==
      [ StatusEntry("New", |StatusBucket(issues, New)|), StatusEntry("In Progress", |StatusBucket(issues, InProgress)|),
        StatusEntry("Awaiting Customer", |StatusBucket(issues, AwaitingCustomer)|),
        StatusEntry("Resolved", |StatusBucket(issues, Resolved)|), StatusEntry("Closed", |StatusBucket(issues, Closed)|) ]
  {
    var g := StatusGroups(issues);
    assert SnapshotOf(issues).byStatus == g;
    OptionListsComplete();
    EntriesOfAllStatuses(g);
  }

  /** Every issue is in exactly one slice: the slices add up to all issues. */
  lemma StatusDataTotal(issues: seq<Issue>)
    ensures EntriesTotal(StatusData(issues)) == |issues|
  {
    StatusDataShape(issues);
    var d := StatusData(issues);
    assert EntriesTotal(d[4..]) == d[4].value by {
      assert d[4..][1..] == [];
    }
    assert EntriesTotal(d[3..]) == d[3].value + EntriesTotal(d[4..]) by {
      assert d[3..][1..] == d[4..];
    }
    assert EntriesTotal(d[2..]) == d[2].value + EntriesTotal(d[3..]) by {
      assert d[2..][1..] == d[3..];
    }
    assert EntriesTotal(d[1..]) == d[1].value + EntriesTotal(d[2..]) by {
      assert d[1..][1..] == d[2..];
    }
    StatusBucketsPartition(issues);
  }

  /**
   * The page subscribes with no filters: it sees exactly the issues that are not archived,
   * unsearched, so its figures are those of the active issues.
   */
  lemma InsightsSeesActiveIssues(store: map<IssueId, Issue>, rows: seq<Row>)
    requires IsQueryResult(store, Merged(None), rows)
    ensures ApplySearch(rows, Merged(None).search) == rows
    ensures forall k :: 0 <= k < |rows| ==> !rows[k].issue.isArchived
    ensures forall id :: id in store && !store[id].isArchived ==> Row(id, store[id]) in rows
  {
    forall k | 0 <= k < |rows| ensures !rows[k].issue.isArchived {
      DefaultViewIsActiveIssues(rows[k].issue);
    }
    forall id | id in store && !store[id].isArchived ensures Row(id, store[id]) in rows {
      DefaultViewIsActiveIssues(store[id]);
    }
  }
}

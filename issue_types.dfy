/**
 * The records of the issue tracker (src/types/issue.ts, src/types/settings.ts):
 * the five products, the five-state workflow, four priorities, the SLA risk tag,
 * an issue as the application reads it, the activity log entry, the form values a
 * new issue is created from, a partial update of them, and the list filters.
 */
module IssueTypes {
  import opened Wrappers

  datatype Category = Urologiq | Corsight | Oneview | Infrastructure | Other

  datatype Status = New | InProgress | AwaitingCustomer | Resolved | Closed

  datatype Priority = Low | Medium | High | Critical

  datatype SlaRisk = OnTrack | AtRisk | Breached

  /** The text each enum value is stored and displayed as. */
  function CategoryLabel(c: Category): string {
    match c
    case Urologiq => "Urologiq"
    case Corsight => "Corsight"
    case Oneview => "Oneview"
    case Infrastructure => "Infrastructure"
    case Other => "Other"
  }

  function StatusLabel(s: Status): string {
    match s
    case New => "New"
    case InProgress => "In Progress"
    case AwaitingCustomer => "Awaiting Customer"
    case Resolved => "Resolved"
    case Closed => "Closed"
  }

  function PriorityLabel(p: Priority): string {
    match p
    case Low => "Low"
    case Medium => "Medium"
    case High => "High"
    case Critical => "Critical"
  }

  function SlaLabel(r: SlaRisk): string {
    match r
    case OnTrack => "On Track"
    case AtRisk => "At Risk"
    case Breached => "Breached"
  }

  /** An attached file: its name and its download URL. */
  datatype Document = Document(name: string, url: string)

  /** A Firestore document id. */
  type IssueId = string

  /** `Timestamp.now()` on the caller's clock, abstracted to a number; the store assumes it never decreases. */
  type Time = nat

  /**
   * An issue as `subscribeToIssues` hands it to the screens, keyed by its document id.
   * `assignee` None is `null`; `customerName` None is an absent field;
   * `expectedResolution` None is `null` or absent (read the same way).
   */
  datatype Issue = Issue(
    serialNumber: nat,
    description: string,
    category: Category,
    status: Status,
    priority: Priority,
    assignee: Option<string>,
    reporter: string,
    customerName: Option<string>,
    createdAt: Time,
    updatedAt: Time,
    expectedResolution: Option<string>,
    slaBreachRisk: SlaRisk,
    tags: seq<string>,
    documents: seq<Document>,
    isArchived: bool)

  /** IssueFormValues: what a new issue is created from (None marks an absent field). */
  datatype IssueFormValues = IssueFormValues(
    description: string,
    category: Category,
    status: Status,
    priority: Priority,
    assignee: Option<string>,
    reporter: string,
    customerName: Option<string>,
    expectedResolution: Option<string>,
    slaBreachRisk: Option<SlaRisk>,
    tags: Option<seq<string>>,
    documents: seq<Document>)

  /**
   * Partial<IssueFormValues>: the fields an update writes. None leaves a field alone;
   * for the nullable fields Some(None) writes `null`.
   */
  datatype IssuePatch = IssuePatch(
    description: Option<string>,
    category: Option<Category>,
    status: Option<Status>,
    priority: Option<Priority>,
    assignee: Option<Option<string>>,
    reporter: Option<string>,
    customerName: Option<string>,
    expectedResolution: Option<Option<string>>,
    slaBreachRisk: Option<SlaRisk>,
    tags: Option<seq<string>>,
    documents: Option<seq<Document>>,
    isArchived: Option<bool>)

  const EmptyPatch: IssuePatch :=
    IssuePatch(None, None, None, None, None, None, None, None, None, None, None, None)

  datatype Action = Comment | StatusUpdate | Assignment | Closure

  /** One entry of an issue's activity log. */
  datatype Activity = Activity(actor: string, action: Action, message: string, timestamp: Time)

  /**
   * IssueFilters. `assignee`, `showOnlyOpen`, `search` and `showArchived` are optional
   * (None is `undefined`).
   */
  datatype IssueFilters = IssueFilters(
    categories: seq<Category>,
    statuses: seq<Status>,
    priorities: seq<Priority>,
    assignee: Option<string>,
    showOnlyOpen: Option<bool>,
    search: Option<string>,
    showArchived: Option<bool>)

  /**
   * Partial<IssueFilters>. None is a field that is not there (or is `undefined` where
   * that reads the same); for the optional fields Some(None) is a field present with the
   * value `undefined`, which a spread copies.
   */
  datatype FiltersPatch = FiltersPatch(
    categories: Option<seq<Category>>,
    statuses: Option<seq<Status>>,
    priorities: Option<seq<Priority>>,
    assignee: Option<Option<string>>,
    showOnlyOpen: Option<Option<bool>>,
    search: Option<Option<string>>,
    showArchived: Option<Option<bool>>)

  const NoFilterChange: FiltersPatch := FiltersPatch(None, None, None, None, None, None, None)

  /** JavaScript truthiness of an optional string: present and non-empty. */
  predicate Truthy(s: Option<string>) {
    s.Some? && s.value != ""
  }

  /** JavaScript truthiness of an optional flag. */
  predicate IsSet(b: Option<bool>) {
    b == Some(true)
  }
}

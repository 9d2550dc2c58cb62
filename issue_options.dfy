/**
 * The option lists the screens offer and the directory of people issues are assigned
 * to (src/constants/issueOptions.ts).
 */
module IssueOptions {
  import opened IssueTypes
  import opened Text

  const AllCategories: seq<Category> := [Urologiq, Corsight, Oneview, Infrastructure, Other]

  const AllStatuses: seq<Status> := [New, InProgress, AwaitingCustomer, Resolved, Closed]

  const AllPriorities: seq<Priority> := [Low, Medium, High, Critical]

  const SlaOptions: seq<SlaRisk> := [OnTrack, AtRisk, Breached]

  /** A person who can be picked as assignee or reporter. */
  datatype User = User(name: string, email: string)

  const AssignableUsers: seq<User> := [
    User("Ravichandar N", "n.ravi@biocliq.com"),
    User("Syed Furqan Azeez", "Furqan.azeez@biocliq.com"),
    User("B Rengarajan", "renga@biocliq.com"),
    User("Apeksha Sakegaonkar", "apeksha@biocliq.com"),
    User("Shivam Gaikwad", "shivam@biocliq.com"),
    User("Aamir Mohammed Shariff", "aamir@biocliq.com"),
    User("Shashi kiran km", "shashikiran@biocliq.com"),
    User("Yogesh Jadhav", "yogesh@biocliq.com"),
    User("Nayab Fathima", "nayab@biocliq.com"),
    User("Swapnil Patil", "swapnil@biocliq.com"),
    User("Akhila KR", "akhila@biocliq.com"),
    User("Mohammed Faisal Jamal Sabri", "faisal@biocliq.com"),
    User("Sanket Dhumal", "sanket@biocliq.com"),
    User("Mohd Irfanullah Khatib I", "irfan@biocliq.com"),
    User("Joyshree Debbarma", "joyshree@biocliq.com"),
    User("Hari Om Swarup S A", "hariomswarup@biocliq.com"),
    User("Amit Kumar", "amit@biocliq.com")
  ]

  function Names(users: seq<User>): seq<string> {
    seq(|users|, k requires 0 <= k < |users| => users[k].name)
  }

  function Emails(users: seq<User>): seq<string> {
    seq(|users|, k requires 0 <= k < |users| => users[k].email)
  }

  /** A directory in which a name determines at most one person and every field is non-empty. */
  predicate WellFormedDirectory(users: seq<User>) {
    && NoDup(Names(users))
    && NoDup(Emails(users))
    && forall k :: 0 <= k < |users| ==> users[k].name != "" && users[k].email != ""
  }

  /** Five products, five statuses in workflow order, four priorities, three SLA tags; each listed once and all listed. */
  lemma OptionListsComplete()
    ensures |AllCategories| == 5 && NoDup(AllCategories) && forall c: Category :: c in AllCategories
    ensures |AllStatuses| == 5 && NoDup(AllStatuses) && forall s: Status :: s in AllStatuses
    ensures AllStatuses == [New, InProgress, AwaitingCustomer, Resolved, Closed]
    ensures |AllPriorities| == 4 && NoDup(AllPriorities) && forall p: Priority :: p in AllPriorities
    ensures |SlaOptions| == 3 && NoDup(SlaOptions) && forall r: SlaRisk :: r in SlaOptions
  {
    forall c: Category ensures c in AllCategories {
      match c
      case Urologiq => assert AllCategories[0] == c;
      case Corsight => assert AllCategories[1] == c;
      case Oneview => assert AllCategories[2] == c;
      case Infrastructure => assert AllCategories[3] == c;
      case Other => assert AllCategories[4] == c;
    }
    forall s: Status ensures s in AllStatuses {
      match s
      case New => assert AllStatuses[0] == s;
      case InProgress => assert AllStatuses[1] == s;
      case AwaitingCustomer => assert AllStatuses[2] == s;
      case Resolved => assert AllStatuses[3] == s;
      case Closed => assert AllStatuses[4] == s;
    }
    forall p: Priority ensures p in AllPriorities {
      match p
      case Low => assert AllPriorities[0] == p;
      case Medium => assert AllPriorities[1] == p;
      case High => assert AllPriorities[2] == p;
      case Critical => assert AllPriorities[3] == p;
    }
    forall r: SlaRisk ensures r in SlaOptions {
      match r
      case OnTrack => assert SlaOptions[0] == r;
      case AtRisk => assert SlaOptions[1] == r;
      case Breached => assert SlaOptions[2] == r;
    }
  }

  /** Names and emails of the directory are pairwise distinct, so name to email is a function. */
  lemma AssignableUsersWellFormed()
    ensures |AssignableUsers| == 17
    ensures WellFormedDirectory(AssignableUsers)
  {
    AssignableNamesDistinct();
    AssignableEmailsDistinct();
  }

  lemma AssignableNamesDistinct()
    ensures NoDup(Names(AssignableUsers))
  {
  }

  lemma AssignableEmailsDistinct()
    ensures NoDup(Emails(AssignableUsers))
  {
  }
}

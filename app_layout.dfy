/**
 * The application shell (src/layouts/AppLayout.tsx): the avatar's initials taken from the
 * signed-in email, and which navigation entry is highlighted for the current path.
 */
module AppLayout {
  import opened Wrappers
  import opened Text
  import opened IssueTypes

  // ---------------------------------------------------------------------------
  // Initials
  // ---------------------------------------------------------------------------

  /** The characters of the pattern `/[._-]/`. */
  predicate IsInitialsSep(c: char) {
    c == '.' || c == '_' || c == '-'
  }

  /** `const [namePart] = email.split('@')`: the text before the first '@'. */
  function LocalPart(email: string): (r: string)
    ensures StartsWith(email, r) && '@' !in r
    ensures |r| < |email| ==> email[|r|] == '@'
  {
    SplitFirstPiece(email, '@');
    Split(email, '@')[0]
  }

  /** `.map((segment) => segment[0]?.toUpperCase()).join('')` over non-empty segments. */
  function FirstLetters(segs: seq<string>): (r: string)
    requires forall k :: 0 <= k < |segs| ==> segs[k] != ""
    ensures |r| == |segs|
    ensures forall k :: 0 <= k < |r| ==> r[k] == UpperChar(segs[k][0])
  {
    if segs == [] then ""
    else [UpperChar(segs[0][0])] + FirstLetters(segs[1..])
  }

  /** The length of the longest prefix of `s` without a separator. */
  function RunLength(s: string): (n: nat)
    ensures n <= |s|
    ensures forall k :: 0 <= k < n ==> !IsInitialsSep(s[k])
    ensures n < |s| ==> IsInitialsSep(s[n])
  {
    if s == [] || IsInitialsSep(s[0]) then 0 else 1 + RunLength(s[1..])
  }

  /**
   * The maximal runs of non-separator characters, read left to right: each run goes on
   * until a separator or the end of the text, and separators between runs are skipped.
   */
  function Runs(s: string): seq<string>
    decreases |s|
  {
    if s == [] then []
    else if IsInitialsSep(s[0]) then Runs(s[1..])
    else
      var n := RunLength(s);
      [s[..n]] + Runs(s[n..])
  }

  /** The text with every separator removed. */
  function WithoutSeps(s: string): string {
    if s == [] then ""
    else if IsInitialsSep(s[0]) then WithoutSeps(s[1..])
    else [s[0]] + WithoutSeps(s[1..])
  }

  function Concat(xs: seq<string>): string {
    if xs == [] then "" else xs[0] + Concat(xs[1..])
  }

  /** Removing the separators from a split and dropping its empty pieces leaves the runs. */
  lemma {:induction false} SplitWhereIsRuns(s: string)
    ensures DropEmpty(SplitWhere(s, IsInitialsSep)) == Runs(s)
    decreases |s|
  {
    if s == [] {
    } else if IsInitialsSep(s[0]) {
      SplitWhereIsRuns(s[1..]);
    } else {
      var n := RunLength(s);
      var a, b := s[..n], s[n..];
      assert s == a + b;
      assert forall k :: 0 <= k < |a| ==> !IsInitialsSep(a[k]) by {
        forall k | 0 <= k < |a| ensures !IsInitialsSep(a[k]) {
          assert a[k] == s[k];
        }
      }
      SplitWherePrefix(a, b, IsInitialsSep);
      if b == [] {
        assert SplitWhere(b, IsInitialsSep) == [""];
        assert a + "" == a;
        assert SplitWhere(s, IsInitialsSep) == [a];
      } else {
        assert b[0] == s[n] && IsInitialsSep(b[0]);
        assert SplitWhere(b, IsInitialsSep) == [""] + SplitWhere(b[1..], IsInitialsSep);
        assert a + "" == a;
        assert SplitWhere(s, IsInitialsSep) == [a] + SplitWhere(b[1..], IsInitialsSep);
        SplitWhereIsRuns(b[1..]);
        assert Runs(b) == Runs(b[1..]);
      }
    }
  }

  /** A text without a separator loses nothing when the separators are removed. */
  lemma {:induction false} WithoutSepsPlain(a: string, b: string)
    requires forall k :: 0 <= k < |a| ==> !IsInitialsSep(a[k])
    ensures WithoutSeps(a + b) == a + WithoutSeps(b)
  {
    if a != [] {
      assert (a + b)[0] == a[0] && (a + b)[1..] == a[1..] + b;
      assert !IsInitialsSep(a[0]);
      assert WithoutSeps(a + b) == [a[0]] + WithoutSeps(a[1..] + b);
      WithoutSepsPlain(a[1..], b);
      assert [a[0]] + (a[1..] + WithoutSeps(b)) == a + WithoutSeps(b);
    } else {
      assert a + b == b;
    }
  }

  /** The runs, put back together in order, are the text with its separators removed. */
  lemma {:induction false} RunsConcat(s: string)
    ensures Concat(Runs(s)) == WithoutSeps(s)
    decreases |s|
  {
    if s != [] {
      if IsInitialsSep(s[0]) {
        RunsConcat(s[1..]);
      } else {
        var n := RunLength(s);
        RunsConcat(s[n..]);
        assert s == s[..n] + s[n..];
        WithoutSepsPlain(s[..n], s[n..]);
        assert ([s[..n]] + Runs(s[n..]))[1..] == Runs(s[n..]);
      }
    }
  }

  /**
   * The segments of the part before '@': its maximal runs without '.', '_' or '-', in order,
   * which together spell that part with the separators taken out.
   */
  function Segments(email: string): (r: seq<string>)
    ensures r == Runs(LocalPart(email))
    ensures Concat(r) == WithoutSeps(LocalPart(email))
    ensures forall s :: s in r ==> s != "" && '@' !in s
    ensures forall s, k :: s in r && 0 <= k < |s| ==> !IsInitialsSep(s[k])
    ensures forall k :: 0 <= k < |r| ==> r[k] != ""
  {
    var pieces := SplitWhere(LocalPart(email), IsInitialsSep);
    assert forall s :: s in pieces ==> '@' !in s by {
      forall s | s in pieces ensures '@' !in s {
        var j :| 0 <= j < |pieces| && pieces[j] == s;
        SplitWhereInfix(LocalPart(email), IsInitialsSep, j);
      }
    }
    var r := DropEmpty(pieces);
    assert forall k :: 0 <= k < |r| ==> r[k] in r;
    SplitWhereIsRuns(LocalPart(email));
    RunsConcat(LocalPart(email));
    r
  }

  /** Each piece of `SplitWhere` is made of characters of the input. */
  lemma {:induction false} SplitWhereInfix(s: string, isSep: char -> bool, j: nat)
    requires j < |SplitWhere(s, isSep)|
    ensures forall c :: c in SplitWhere(s, isSep)[j] ==> c in s
  {
    if s != [] {
      var rest := SplitWhere(s[1..], isSep);
      if isSep(s[0]) {
        if j > 0 {
          SplitWhereInfix(s[1..], isSep, j - 1);
        }
      } else if j == 0 {
        SplitWhereInfix(s[1..], isSep, 0);
      } else {
        SplitWhereInfix(s[1..], isSep, j);
      }
    }
  }

  /** `getInitials`: 'U' without an email, else the first letters of the first two segments. */
  function GetInitials(email: Option<string>): (r: string)
    ensures |r| <= 2
    ensures !Truthy(email) ==> r == "U"
    ensures Truthy(email) ==> |r| == Min(|Segments(email.value)|, 2)
    ensures Truthy(email) ==> forall k :: 0 <= k < |r| ==> r[k] == UpperChar(Segments(email.value)[k][0])
  {
    if !Truthy(email) then "U" else Take(FirstLetters(Segments(email.value)), 2)
  }

  function Min(a: nat, b: nat): nat {
    if a <= b then a else b
  }

  /** `initials || 'U'`: what the avatar shows. */
  function AvatarText(email: Option<string>): (r: string)
    ensures 1 <= |r| <= 2
    ensures !Truthy(email) || Segments(email.value) == [] ==> r == "U"
    ensures Truthy(email) && Segments(email.value) != [] ==> r == GetInitials(email)
  {
    var i := GetInitials(email);
    if i == "" then "U" else i
  }

  /** No ASCII lower-case letter is ever shown: every initial is upper-cased. */
  lemma InitialsUpperCase(email: Option<string>)
    ensures forall k :: 0 <= k < |GetInitials(email)| ==> !('a' <= GetInitials(email)[k] <= 'z')
  {
  }

  /** Only the text before the first '@' counts: the domain never changes the initials. */
  lemma InitialsIgnoreDomain(local: string, domain: string, other: string)
    requires '@' !in local
    ensures GetInitials(Some(local + "@" + domain)) == GetInitials(Some(local + "@" + other))
  {
    SplitAtSep(local, domain, '@');
    SplitAtSep(local, other, '@');
  }

  /** An email with a dotted name before the '@' gives the two upper-cased first letters. */
  lemma TwoPartName(first: string, last: string, domain: string)
    requires first != "" && last != ""
    requires forall k :: 0 <= k < |first| ==> !IsInitialsSep(first[k]) && first[k] != '@'
    requires forall k :: 0 <= k < |last| ==> !IsInitialsSep(last[k]) && last[k] != '@'
    ensures GetInitials(Some(first + "." + last + "@" + domain)) == [UpperChar(first[0]), UpperChar(last[0])]
  {
    var local := first + "." + last;
    assert '@' !in local;
    assert local + "@" + domain == local + ['@'] + domain;
    SplitAtSep(local, domain, '@');
    assert local == first + ['.'] + last;
    SplitWhereAtSep(first, '.', last, IsInitialsSep);
    SplitWhereNoSep(last, IsInitialsSep);
    DropEmptyKeeps([first, last]);
  }

  /** `n.ravi@biocliq.com` shows NR. */
  lemma InitialsExample()
    ensures GetInitials(Some("n.ravi@biocliq.com")) == "NR"
  {
    assert "n.ravi@biocliq.com" == "n" + "." + "ravi" + "@" + "biocliq.com";
    TwoPartName("n", "ravi", "biocliq.com");
  }

  /** An email starting with '@' has no initials, and the avatar falls back to 'U'. */
  lemma EmptyLocalPartShowsU(domain: string)
    ensures GetInitials(Some("@" + domain)) == ""
    ensures AvatarText(Some("@" + domain)) == "U"
  {
    assert "@" + domain == "" + ['@'] + domain;
    SplitAtSep("", domain, '@');
    assert SplitWhere("", IsInitialsSep) == [""];
  }

  // ---------------------------------------------------------------------------
  // Navigation
  // ---------------------------------------------------------------------------

  datatype NavItem = NavItem(title: string, path: string)

  /** `navItems`, in menu order. */
  const NavItems: seq<NavItem> := [
    NavItem("Dashboard", "/dashboard"),
    NavItem("Issue Board", "/issues/board"),
    NavItem("Insights", "/insights"),
    NavItem("Admin", "/admin")
  ]

  /** `location.pathname.startsWith(item.path)`. */
  predicate NavSelected(pathname: string, item: NavItem) {
    StartsWith(pathname, item.path)
  }

  /** Two paths that differ at a position both reach are never both prefixes of one path. */
  lemma PrefixesDiffer(pathname: string, a: string, b: string, k: nat)
    requires k < |a| && k < |b| && a[k] != b[k]
    ensures !(StartsWith(pathname, a) && StartsWith(pathname, b))
  {
  }

  /**
   * No path highlights two entries, each entry is highlighted on its own page and every
   * page below it, and the root highlights none.
   */
  lemma NavSelection(pathname: string, i: nat, j: nat, rest: string)
    requires i < j < |NavItems|
    ensures !(NavSelected(pathname, NavItems[i]) && NavSelected(pathname, NavItems[j]))
    ensures NavSelected(NavItems[i].path + rest, NavItems[i])
    ensures forall n :: n in NavItems ==> !NavSelected("/", n)
  {
    var p := NavItems;
    assert p[0].path[1] == 'd' && p[1].path[1] == 'i' && p[2].path[1] == 'i' && p[3].path[1] == 'a';
    assert p[1].path[2] == 's' && p[2].path[2] == 'n';
    if i == 1 && j == 2 {
      PrefixesDiffer(pathname, p[i].path, p[j].path, 2);
    } else {
      PrefixesDiffer(pathname, p[i].path, p[j].path, 1);
    }
    assert (NavItems[i].path + rest)[..|NavItems[i].path|] == NavItems[i].path;
  }
}

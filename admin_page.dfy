/**
 * The routing settings page (src/pages/AdminPage.tsx, src/types/settings.ts): per-product
 * default owners, and the escalation and watcher lists edited as text, parsed on every
 * change and shown joined again.
 */
module AdminPage {
  import opened Text
  import opened IssueTypes
  import opened IssueOptions

  /** `RoutingSettings`. */
  datatype RoutingSettings = RoutingSettings(
    defaultAssignees: map<Category, string>,
    escalationContacts: seq<string>,
    watchers: seq<string>)

  /** `defaultRoutingSettings`: every product with a blank owner, both lists empty. */
  const DefaultRoutingSettings: RoutingSettings :=
    RoutingSettings(map c | c in AllCategories :: "", [], [])

  lemma DefaultRoutingSettingsBlank()
    ensures forall c: Category :: c in DefaultRoutingSettings.defaultAssignees && DefaultRoutingSettings.defaultAssignees[c] == ""
    ensures DefaultRoutingSettings.escalationContacts == [] && DefaultRoutingSettings.watchers == []
  {
    OptionListsComplete();
  }

  // ---------------------------------------------------------------------------
  // Parsing and joining the two lists
  // ---------------------------------------------------------------------------

  /** `.map((entry) => entry.trim())`. */
  function TrimAll(xs: seq<string>): seq<string> {
    seq(|xs|, k requires 0 <= k < |xs| => Trim(xs[k]))
  }

  /** What a parsed list can hold: non-empty entries, trimmed, without the separator. */
  predicate WellFormedList(xs: seq<string>, sep: char) {
    forall x :: x in xs ==> x != "" && IsTrimmed(x) && sep !in x
  }

  /** Trimmed pieces of a split are trimmed and hold no separator. */
  lemma TrimmedPiecesClean(pieces: seq<string>, sep: char)
    requires forall k :: 0 <= k < |pieces| ==> sep !in pieces[k]
    ensures forall x :: x in TrimAll(pieces) ==> IsTrimmed(x) && sep !in x
  {
    forall x | x in TrimAll(pieces) ensures IsTrimmed(x) && sep !in x {
      var j :| 0 <= j < |pieces| && TrimAll(pieces)[j] == x;
      TrimIsTrimmed(pieces[j]);
      TrimInfix(pieces[j], sep);
    }
  }

  /** `text.split(sep).map(trim).filter(Boolean)`. */
  function ParseList(text: string, sep: char): (r: seq<string>)
    ensures WellFormedList(r, sep)
  {
    TrimmedPiecesClean(Split(text, sep), sep);
    DropEmpty(TrimAll(Split(text, sep)))
  }

  /** The escalation field's parse: split on ','. */
  function ParseEscalation(text: string): seq<string> {
    ParseList(text, ',')
  }

  /** The escalation field's value: the list joined with ', '. */
  function EscalationText(xs: seq<string>): string {
    JoinWith(xs, ", ")
  }

  /** The watchers field's parse: split on line breaks. */
  function ParseWatchers(text: string): seq<string> {
    ParseList(text, '\n')
  }

  /** The watchers field's value: one entry per line. */
  function WatchersText(xs: seq<string>): string {
    JoinWith(xs, "\n")
  }

  /** Trimming the pieces of a padded join removes exactly the padding. */
  lemma TrimPaddedPieces(xs: seq<string>, pad: string)
    requires |xs| >= 1 && forall k :: 0 <= k < |xs| ==> IsTrimmed(xs[k])
    requires AllWhitespace(pad)
    ensures TrimAll([xs[0]] + seq(|xs| - 1, k requires 0 <= k < |xs| - 1 => pad + xs[k + 1])) == xs
  {
    var pieces := [xs[0]] + seq(|xs| - 1, k requires 0 <= k < |xs| - 1 => pad + xs[k + 1]);
    forall k | 0 <= k < |xs| ensures Trim(pieces[k]) == xs[k] {
      if k == 0 {
        TrimTrimmed(xs[0]);
      } else {
        assert pieces[k] == pad + xs[k];
        TrimPadded(pad, xs[k]);
      }
    }
    TrimAllPointwise(pieces, xs);
  }

  /** A list whose pieces each trim to the matching entry trims to the entries. */
  lemma TrimAllPointwise(pieces: seq<string>, xs: seq<string>)
    requires |pieces| == |xs|
    requires forall k :: 0 <= k < |xs| ==> Trim(pieces[k]) == xs[k]
    ensures TrimAll(pieces) == xs
  {
  }

  /** Joining with the separator and whitespace, then parsing, gives a well-formed list back. */
  lemma ListRoundTrip(xs: seq<string>, sep: char, pad: string)
    requires WellFormedList(xs, sep)
    requires AllWhitespace(pad) && sep !in pad
    ensures ParseList(JoinWith(xs, [sep] + pad), sep) == xs
  {
    if xs == [] {
      TrimIsTrimmed("");
      assert TrimAll([""]) == [""];
    } else {
      assert forall k :: 0 <= k < |xs| ==> xs[k] in xs;
      SplitJoinPadded(xs, sep, pad);
      TrimPaddedPieces(xs, pad);
      DropEmptyKeeps(xs);
    }
  }

  /** The escalation field shows a list that parses back to itself. */
  lemma EscalationRoundTrip(xs: seq<string>)
    requires WellFormedList(xs, ',')
    ensures ParseEscalation(EscalationText(xs)) == xs
  {
    assert IsWhitespace(' ') && [','] + " " == ", ";
    ListRoundTrip(xs, ',', " ");
  }

  /** The watchers field shows a list that parses back to itself. */
  lemma WatchersRoundTrip(xs: seq<string>)
    requires WellFormedList(xs, '\n')
    ensures ParseWatchers(WatchersText(xs)) == xs
  {
    assert ['\n'] + "" == "\n";
    ListRoundTrip(xs, '\n', "");
  }

  /** Whatever was typed, the list shown afterwards parses to the same list: the field settles after one change. */
  lemma ParseSettles(text: string)
    ensures ParseEscalation(EscalationText(ParseEscalation(text))) == ParseEscalation(text)
    ensures ParseWatchers(WatchersText(ParseWatchers(text))) == ParseWatchers(text)
  {
    EscalationRoundTrip(ParseEscalation(text));
    WatchersRoundTrip(ParseWatchers(text));
  }

  // ---------------------------------------------------------------------------
  // The edits of the local settings record
  // ---------------------------------------------------------------------------

  /** The owner field of product `c`: `{ ...prev.defaultAssignees, [category]: value }`. */
  function SetOwner(s: RoutingSettings, c: Category, value: string): RoutingSettings {
    s.(defaultAssignees := s.defaultAssignees[c := value])
  }

  /** The escalation field's change handler. */
  function SetEscalation(s: RoutingSettings, text: string): RoutingSettings {
    s.(escalationContacts := ParseEscalation(text))
  }

  /** The watchers field's change handler. */
  function SetWatchers(s: RoutingSettings, text: string): RoutingSettings {
    s.(watchers := ParseWatchers(text))
  }

  /** Editing an owner replaces that product's owner and nothing else. */
  lemma SetOwnerOnlyThatProduct(s: RoutingSettings, c: Category, value: string, d: Category)
    ensures var r := SetOwner(s, c, value);
      && r.defaultAssignees[c] == value
      && r.defaultAssignees.Keys == s.defaultAssignees.Keys + {c}
      && (d != c && d in s.defaultAssignees ==> r.defaultAssignees[d] == s.defaultAssignees[d])
      && r.escalationContacts == s.escalationContacts && r.watchers == s.watchers
  {
  }

  /** Editing one list leaves the owners and the other list alone, and stores a well-formed list. */
  lemma ListEditsAreSeparate(s: RoutingSettings, text: string)
    ensures var r := SetEscalation(s, text);
      r.defaultAssignees == s.defaultAssignees && r.watchers == s.watchers && WellFormedList(r.escalationContacts, ',')
    ensures var r := SetWatchers(s, text);
      r.defaultAssignees == s.defaultAssignees && r.escalationContacts == s.escalationContacts && WellFormedList(r.watchers, '\n')
  {
  }

  // ---------------------------------------------------------------------------
  // Typing a separator
  // ---------------------------------------------------------------------------

  /** A separator typed at the end parses as if it were not there. */
  lemma ParseIgnoresTrailingSep(text: string, sep: char)
    ensures ParseList(text + [sep], sep) == ParseList(text, sep)
  {
    var pieces := Split(text, sep);
    var t := TrimAll(pieces);
    SplitTrailingSep(text, sep);
    assert Trim("") == "" by {
      TrimIsTrimmed("");
    }
    assert TrimAll(pieces + [""]) == t + [""];
    DropEmptyTrailing(t);
    calc {
      ParseList(text + [sep], sep);
      DropEmpty(TrimAll(pieces + [""]));
      DropEmpty(t + [""]);
      DropEmpty(t);
    }
  }

  /**
   * As written, the field shows the joined list, so a ',' typed after the last entry (or
   * Enter in the watchers field) is parsed away and vanishes from the field at once.
   */
  lemma TypedSeparatorVanishes(s: RoutingSettings)
    requires WellFormedList(s.escalationContacts, ',') && WellFormedList(s.watchers, '\n')
    ensures SetEscalation(s, EscalationText(s.escalationContacts) + ",") == s
    ensures SetWatchers(s, WatchersText(s.watchers) + "\n") == s
  {
    ParseIgnoresTrailingSep(EscalationText(s.escalationContacts), ',');
    EscalationRoundTrip(s.escalationContacts);
    ParseIgnoresTrailingSep(WatchersText(s.watchers), '\n');
    WatchersRoundTrip(s.watchers);
  }

  /**
   * Typing ',' and then a second contact after the one contact `x`: as written the two
   * run together into one contact (for example "a" then "b" gives "ab", not "a" and "b").
   */
  lemma TypingSecondContactAsWritten(x: string, y: string)
    requires WellFormedList([x, y], ',')
    ensures var s := RoutingSettings(map[], [x], []);
      var afterComma := SetEscalation(s, EscalationText(s.escalationContacts) + ",");
      var afterB := SetEscalation(afterComma, EscalationText(afterComma.escalationContacts) + y);
      afterComma == s && afterB.escalationContacts == [x + y]
  {
    var s := RoutingSettings(map[], [x], []);
    assert x in [x, y] && y in [x, y];
    assert WellFormedList(s.escalationContacts, ',') && WellFormedList(s.watchers, '\n');
    TypedSeparatorVanishes(s);
    var xy := x + y;
    assert EscalationText([x]) + y == xy;
    assert IsTrimmed(xy) by {
      assert xy[0] == x[0] && xy[|xy| - 1] == y[|y| - 1];
    }
    ParseOneEntry(xy, ',');
  }

  /** A single well-formed entry parses to itself. */
  lemma ParseOneEntry(x: string, sep: char)
    requires x != "" && IsTrimmed(x) && sep !in x
    ensures ParseList(x, sep) == [x]
  {
    SplitNoSep(x, sep);
    TrimTrimmed(x);
    TrimAllPointwise([x], [x]);
    DropEmptyKeeps([x]);
  }

  /** The form with the field texts kept as typed, parsed on every change. */
  datatype AdminForm = AdminForm(settings: RoutingSettings, escalationDraft: string, watchersDraft: string)

  /** The form as loaded: the stored lists joined. */
  function FormOf(s: RoutingSettings): AdminForm {
    AdminForm(s, EscalationText(s.escalationContacts), WatchersText(s.watchers))
  }

  /** The escalation field keeping its own text. */
  function EditEscalationDraft(f: AdminForm, text: string): AdminForm {
    f.(escalationDraft := text, settings := SetEscalation(f.settings, text))
  }

  /** The watchers field keeping its own text. */
  function EditWatchersDraft(f: AdminForm, text: string): AdminForm {
    f.(watchersDraft := text, settings := SetWatchers(f.settings, text))
  }

  /**
   * Corrected, the field shows exactly what was typed, separators included, and stores
   * the same list as the change handler as written; only the last text typed counts, so
   * typing character by character reaches the list of the whole text.
   */
  lemma DraftKeepsTypedText(f: AdminForm, first: string, text: string)
    ensures EditEscalationDraft(f, text).escalationDraft == text
    ensures EditEscalationDraft(f, text).settings == SetEscalation(f.settings, text)
    ensures EditEscalationDraft(EditEscalationDraft(f, first), text) == EditEscalationDraft(f, text)
    ensures EditWatchersDraft(f, text).watchersDraft == text
    ensures EditWatchersDraft(f, text).settings == SetWatchers(f.settings, text)
    ensures EditWatchersDraft(EditWatchersDraft(f, first), text) == EditWatchersDraft(f, text)
  {
  }

  /** Two entries with a bare separator between them parse to those two entries. */
  lemma ParseTwoEntries(x: string, y: string, sep: char)
    requires WellFormedList([x, y], sep)
    ensures ParseList(x + [sep] + y, sep) == [x, y]
  {
    assert x in [x, y] && y in [x, y];
    SplitAtSep(x, y, sep);
    SplitNoSep(y, sep);
    assert Split(x + [sep] + y, sep) == [x, y];
    TrimTrimmed(x);
    TrimTrimmed(y);
    TrimAllPointwise([x, y], [x, y]);
    DropEmptyKeeps([x, y]);
  }

  /**
   * Corrected, typing ',' and then a second contact after the contact `x` gives the two
   * contacts (for example "a" then "b" gives "a" and "b").
   */
  lemma TypingSecondContactCorrected(x: string, y: string)
    requires WellFormedList([x, y], ',')
    ensures var f := FormOf(RoutingSettings(map[], [x], []));
      var afterComma := EditEscalationDraft(f, f.escalationDraft + ",");
      var afterB := EditEscalationDraft(afterComma, afterComma.escalationDraft + y);
      afterComma.escalationDraft == x + "," && afterB.settings.escalationContacts == [x, y]
  {
    var f := FormOf(RoutingSettings(map[], [x], []));
    assert f.escalationDraft == x;
    assert x + "," + y == x + [','] + y;
    ParseTwoEntries(x, y, ',');
  }
}

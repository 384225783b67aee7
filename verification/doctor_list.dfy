/**
 * The doctors page: a fixed roster, a search box that filters it by name or
 * specialty, and a profile dialog opened from a row of the filtered list.
 */
module DoctorList {
  import opened Options
  import opened Seqs
  import opened Text

  /** A roster entry; the rating is kept in tenths (4.8 is 48). */
  datatype Doctor = Doctor(name: string, specialty: string, experience: nat, ratingTenths: nat, details: string)

  const Sharma := Doctor("Dr. Priya Sharma", "Cardiologist", 13, 48, "Harvard-trained, Fluent in Hindi/English.")
  const Singh := Doctor("Dr. John Singh", "Dermatologist", 8, 46, "Skilled in laser therapy.")
  const Patel := Doctor("Dr. Meera Patel", "General Physician", 10, 47, "Focus: preventive care.")
  const Garcia := Doctor("Dr. Lisa Garcia", "Pediatrician", 9, 49, "Childcare specialist.")
  const Chang := Doctor("Dr. Michael Chang", "Neurologist", 11, 45, "MS/Stroke expert.")

  /** `DOCTORS`: the five doctors in roster order. */
  function Roster(): (r: seq<Doctor>)
    ensures |r| == 5
  {
    [Sharma, Singh, Patel, Garcia, Chang]
  }

  /** The search rule: the lower-cased query occurs in the lower-cased name or specialty. */
  predicate Matches(d: Doctor, query: string) {
    Contains(Lower(d.name), Lower(query)) || Contains(Lower(d.specialty), Lower(query))
  }

  /** The search rule for a fixed query, as a filter callback. */
  function MatchesQuery(query: string): Doctor -> bool {
    (d: Doctor) => Matches(d, query)
  }

  /** `filtered`: the roster entries the query matches, in roster order. */
  function Filtered(query: string): (r: seq<Doctor>)
    ensures |r| <= |Roster()|
    ensures forall d :: d in r <==> d in Roster() && Matches(d, query)
  {
    Filter(Roster(), MatchesQuery(query))
  }

  /** The filtered list keeps roster order. */
  lemma FilteredKeepsRosterOrder(query: string)
    ensures IsSubsequence(Filtered(query), Roster())
  {
    FilterIsSubsequence(Roster(), MatchesQuery(query));
  }

  /** The empty string occurs in every string. */
  lemma EmptyOccurs(s: string)
    ensures Contains(s, "")
  {
    assert OccursAt(s, "", 0);
  }

  /** An empty query keeps the whole roster. */
  lemma EmptyQueryKeepsAll()
    ensures Filtered("") == Roster()
  {
    forall d | d in Roster() ensures Matches(d, "") {
      EmptyOccurs(Lower(d.name));
    }
    FilterKeepsAll(Roster(), MatchesQuery(""));
  }

  /** The page's state: the search text, the clicked row, and the request banner. */
  datatype Page = Page(query: string, selected: Option<nat>, bookStatus: Option<string>)

  /** The page as it first renders. */
  function InitialPage(): Page {
    Page("", None, None)
  }

  /** Typing in the search box. */
  function SetQuery(p: Page, query: string): (r: Page)
    ensures r.query == query && r.selected == p.selected && r.bookStatus == p.bookStatus
  {
    p.(query := query)
  }

  /** "Profile" or "Book" on row `i` of the filtered list: `setSelected(i)`. */
  function ClickRow(p: Page, i: nat): (r: Page)
    requires i < |Filtered(p.query)|
    ensures r.selected == Some(i) && r.query == p.query && r.bookStatus == p.bookStatus
  {
    p.(selected := Some(i))
  }

  /** The dialog is shown exactly while a row is selected. */
  predicate DialogOpen(p: Page) {
    p.selected.Some?
  }

  /** Closing the dialog: `setSelected(null)`. */
  function CloseDialog(p: Page): (r: Page)
    ensures !DialogOpen(r) && r.query == p.query && r.bookStatus == p.bookStatus
  {
    p.(selected := None)
  }

  /**
   * `handleRequest`: the banner reads "Request sent!" and the dialog closes.
   * Clearing the banner 1.3 seconds later is a timer and is not modelled.
   */
  function HandleRequest(p: Page): (r: Page)
    ensures !DialogOpen(r) && r.query == p.query
    ensures r.bookStatus == Some("Request sent!")
  {
    p.(bookStatus := Some("Request sent!"), selected := None)
  }

  /**
   * The doctor the dialog shows, as written: `DOCTORS[selected]`, an index
   * into the whole roster although `selected` was a row of the filtered list.
   */
  function ShownDoctorAsWritten(p: Page): (d: Doctor)
    requires p.selected.Some? && p.selected.value < |Roster()|
    ensures d in Roster()
  {
    Roster()[p.selected.value]
  }

  /** The doctor the dialog should show: row `selected` of the filtered list. */
  function ShownDoctor(p: Page): (d: Doctor)
    requires p.selected.Some? && p.selected.value < |Filtered(p.query)|
    ensures d in Roster() && Matches(d, p.query)
  {
    Filtered(p.query)[p.selected.value]
  }

  /** With the corrected lookup, the dialog shows the doctor on the clicked row, whatever the query. */
  lemma ShowsClickedDoctor(p: Page, i: nat)
    requires i < |Filtered(p.query)|
    ensures ShownDoctor(ClickRow(p, i)) == Filtered(p.query)[i]
  {
  }

  /** With an empty query the two lookups agree, so the bug stays hidden until someone searches. */
  lemma AsWrittenRightForEmptyQuery(p: Page, i: nat)
    requires p.query == "" && i < |Filtered(p.query)|
    ensures ShownDoctorAsWritten(ClickRow(p, i)) == ShownDoctor(ClickRow(p, i))
  {
    EmptyQueryKeepsAll();
  }

  /** A text in which the first two characters of `t` never stand side by side does not contain `t`. */
  lemma NoOpeningPair(s: string, t: string)
    requires |t| >= 2
    requires forall i :: 0 <= i < |s| - 1 ==> !(s[i] == t[0] && s[i + 1] == t[1])
    ensures !Contains(s, t)
  {
    forall i ensures !OccursAt(s, t, i) {
      if 0 <= i && i + |t| <= |s| {
        assert s[i..i + |t|][0] == s[i] && s[i..i + |t|][1] == s[i + 1];
      }
    }
  }

  /** "derm" occurs in neither the name nor the specialty of Dr. Priya Sharma. */
  lemma DermMissesFirst(query: string)
    requires Lower(query) == "derm"
    ensures !Matches(Roster()[0], query)
  {
    assert Roster()[0] == Sharma;
    SharmaNameLacksDerm();
    CardiologistLacksDerm();
  }

  /** "Dr. Priya Sharma" has no 'e', so it does not contain "derm". */
  lemma SharmaNameLacksDerm()
    ensures !Contains(Lower(Sharma.name), "derm")
  {
    NoDermIn(Sharma.name);
  }

  /** "Cardiologist" has no 'e', so it does not contain "derm". */
  lemma CardiologistLacksDerm()
    ensures !Contains(Lower(Sharma.specialty), "derm")
  {
    NoDermIn(Sharma.specialty);
  }

  /** A text with no 'e' in it, ignoring case, does not contain "derm" once lower-cased. */
  lemma NoDermIn(s: string)
    requires 'e' !in s && 'E' !in s
    ensures !Contains(Lower(s), "derm")
  {
    assert forall i :: 0 <= i < |s| ==> Lower(s)[i] != 'e';
    NoOpeningPair(Lower(s), "derm");
  }

  /** "derm" occurs in Dr. John Singh's specialty. */
  lemma DermHitsSecond(query: string)
    requires Lower(query) == "derm"
    ensures Matches(Roster()[1], query)
  {
    var l := Lower("Dermatologist");
    assert l[..4] == "derm";
    assert OccursAt(l, "derm", 0);
  }

  /**
   * Searching "derm" (in any letter case) and clicking the first row, Dr.
   * John Singh, opens a dialog about Dr. Priya Sharma.
   */
  lemma DermSearchShowsWrongDoctor(query: string)
    requires Lower(query) == "derm"
    ensures Filtered(query) != [] && Filtered(query)[0].name == "Dr. John Singh"
    ensures var p := ClickRow(SetQuery(InitialPage(), query), 0);
            && ShownDoctorAsWritten(p).name == "Dr. Priya Sharma"
            && ShownDoctor(p).name == "Dr. John Singh"
  {
    var p := MatchesQuery(query);
    DermMissesFirst(query);
    DermHitsSecond(query);
    var rest := Roster()[1..];
    assert !p(Roster()[0]) && p(rest[0]);
    assert Filter(Roster(), p) == Filter(rest, p);
    FilterFirst(rest, p, 0);
  }
}

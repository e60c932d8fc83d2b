/** The admin applications page: the search/status filter over the loaded
    applications, newest first, and the short rendering of the stored
    availability text. */
module AdminApplicationsPage {

  import opened Common
  import Text
  import Ordering

  /** The fields the page filters and sorts on; `createdAt` is
      `new Date(created_at).getTime()`. */
  datatype Application = Application(
    id: string,
    characterName: string,
    characterClass: string,
    discordName: string,
    status: string,
    createdAt: int)

  /** The search: name, class or Discord name contains the term, ignoring
      case. */
  predicate MatchesSearch(a: Application, term: string) {
    Text.ContainsIgnoringCase(a.characterName, term)
    || Text.ContainsIgnoringCase(a.characterClass, term)
    || Text.ContainsIgnoringCase(a.discordName, term)
  }

  function SearchFilter(term: string): Application -> bool {
    (a: Application) => MatchesSearch(a, term)
  }

  function StatusFilter(status: string): Application -> bool {
    (a: Application) => a.status == status
  }

  /** Whether an application is shown: an empty term and the status 'all'
      switch their filter off. */
  predicate Shown(a: Application, term: string, status: string) {
    (term == "" || MatchesSearch(a, term)) && (status == "all" || a.status == status)
  }

  function ShownFilter(term: string, status: string): Application -> bool {
    (a: Application) => Shown(a, term, status)
  }

  /** `(a, b) => b.created_at - a.created_at`: newest first. */
  function NewestFirst(a: Application): Ordering.Key {
    Ordering.Key(-a.createdAt, 0)
  }

  /** The applications the two filters keep, in their loaded order. */
  function Kept(apps: seq<Application>, term: string, status: string): seq<Application>
  {
    var bySearch := if term != "" then Filter(apps, SearchFilter(term)) else apps;
    if status != "all" then Filter(bySearch, StatusFilter(status)) else bySearch
  }

  /** The list the page displays. */
  function Filtered(apps: seq<Application>, term: string, status: string): seq<Application>
  {
    Ordering.SortBy(Kept(apps, term, status), NewestFirst)
  }

  /** The two filters together keep exactly the shown applications. */
  lemma FiltersCompose(apps: seq<Application>, term: string, status: string)
    ensures Kept(apps, term, status) == Filter(apps, ShownFilter(term, status))
  {
    var shown := ShownFilter(term, status);
    var search, byStatus := SearchFilter(term), StatusFilter(status);
    if term != "" && status != "all" {
      FilterFilter(apps, search, byStatus, shown);
    } else if term != "" {
      assert forall i :: 0 <= i < |apps| ==> search(apps[i]) == shown(apps[i]);
      FilterCongruent(apps, search, shown);
    } else if status != "all" {
      assert forall i :: 0 <= i < |apps| ==> byStatus(apps[i]) == shown(apps[i]);
      FilterCongruent(apps, byStatus, shown);
    } else {
      assert forall i :: 0 <= i < |apps| ==> shown(apps[i]);
      FilterAll(apps, shown);
    }
  }

  /** An application is kept iff it was loaded and is shown. */
  lemma KeptMembership(apps: seq<Application>, term: string, status: string)
    ensures forall a :: a in Kept(apps, term, status) <==> a in apps && Shown(a, term, status)
  {
    var shown := ShownFilter(term, status);
    var kept := Filter(apps, shown);
    FiltersCompose(apps, term, status);
    forall a | a in kept
      ensures a in apps && Shown(a, term, status)
    {
      assert a in multiset(kept);
      var i :| 0 <= i < |kept| && kept[i] == a;
      assert shown(kept[i]);
    }
    forall a | a in apps && Shown(a, term, status)
      ensures a in kept
    {
      assert shown(a);
    }
  }

  /** The displayed list holds each shown application as often as it was
      loaded and nothing else, newest first. */
  lemma FilteredShowsMatches(apps: seq<Application>, term: string, status: string)
    ensures var f := Filtered(apps, term, status);
      && multiset(f) == multiset(Filter(apps, ShownFilter(term, status)))
      && multiset(f) <= multiset(apps)
      && (forall a :: a in f <==> a in apps && Shown(a, term, status))
      && forall i, j :: 0 <= i < j < |f| ==> f[i].createdAt >= f[j].createdAt
  {
    var kept := Kept(apps, term, status);
    var f := Ordering.SortBy(kept, NewestFirst);
    FiltersCompose(apps, term, status);
    KeptMembership(apps, term, status);
    Ordering.SortByPermutes(kept, NewestFirst);
    Ordering.SortBySorted(kept, NewestFirst);
    SameMembers(f, kept);
  }

  /** Sequences with the same multiset have the same members. */
  lemma SameMembers(f: seq<Application>, g: seq<Application>)
    requires multiset(f) == multiset(g)
    ensures forall a :: a in f <==> a in g
  {
    assert forall a :: a in f <==> a in multiset(f);
    assert forall a :: a in g <==> a in multiset(g);
  }

  /** The page's state: the loaded list and the displayed one. */
  class ApplicationsPage {
    var applications: seq<Application>
    var filteredApplications: seq<Application>

    constructor (loaded: seq<Application>)
      ensures applications == loaded && filteredApplications == []
    {
      applications := loaded;
      filteredApplications := [];
    }

    /** `filterApplications` (lines 60-79). `filtered` starts as the state
        array itself and is only replaced by a filter's fresh copy, so when
        neither filter applies the in-place sort reorders the loaded list
        too. */
    method FilterApplications(searchTerm: string, filterStatus: string)
      modifies this
      ensures filteredApplications == Filtered(old(applications), searchTerm, filterStatus)
      ensures searchTerm == "" && filterStatus == "all" ==> applications == filteredApplications
      ensures searchTerm != "" || filterStatus != "all" ==> applications == old(applications)
    {
      var filtered := applications;
      var aliasesState := true;
      if searchTerm != "" {
        filtered := Filter(filtered, SearchFilter(searchTerm));
        aliasesState := false;
      }
      if filterStatus != "all" {
        filtered := Filter(filtered, StatusFilter(filterStatus));
        aliasesState := false;
      }
      assert filtered == Kept(old(applications), searchTerm, filterStatus);
      filtered := Ordering.SortBy(filtered, NewestFirst);
      if aliasesState {
        applications := filtered;
      }
      filteredApplications := filtered;
    }
  }

  // ---------------------------------------------------------------------
  // formatAvailability

  /** One day of the stored text as the page shows it: three trimmed
      names are abbreviated, anything else is kept as it was (untrimmed). */
  function Label(day: string): (l: string)
    ensures Text.Trim(day) == "wednesday" ==> l == "Mi"
    ensures Text.Trim(day) == "sunday" ==> l == "So"
    ensures Text.Trim(day) == "optional" ==> l == "Opt"
    ensures Text.Trim(day) !in {"wednesday", "sunday", "optional"} ==> l == day
    ensures ',' !in day ==> ',' !in l
  {
    var t := Text.Trim(day);
    if t == "wednesday" then "Mi"
    else if t == "sunday" then "So"
    else if t == "optional" then "Opt"
    else day
  }

  function Labels(days: seq<string>): (r: seq<string>)
    ensures |r| == |days|
    ensures forall i :: 0 <= i < |days| ==> r[i] == Label(days[i])
  {
    seq(|days|, i requires 0 <= i < |days| => Label(days[i]))
  }

  /** `formatAvailability` (lines 150-159). */
  function FormatAvailability(availability: string): string
  {
    Text.Join(Labels(Text.Split(availability, ',')), ", ")
  }

  /** Each piece with a leading space. */
  function Spaced(pieces: seq<string>): (r: seq<string>)
    ensures |r| == |pieces|
    ensures forall i :: 0 <= i < |pieces| ==> r[i] == " " + pieces[i]
  {
    seq(|pieces|, i requires 0 <= i < |pieces| => " " + pieces[i])
  }

  /** Joining with ", " is joining the space-prefixed pieces with ",". */
  lemma {:induction false} JoinCommaSpace(pieces: seq<string>)
    requires |pieces| >= 1
    ensures " " + Text.Join(pieces, ", ") == Text.Join(Spaced(pieces), ",")
  {
    if |pieces| > 1 {
      JoinCommaSpace(pieces[1..]);
      assert Spaced(pieces)[1..] == Spaced(pieces[1..]);
      var rest := Text.Join(pieces[1..], ", ");
      calc {
        " " + Text.Join(pieces, ", ");
        " " + (pieces[0] + ", " + rest);
        (" " + pieces[0]) + "," + (" " + rest);
        Text.Join(Spaced(pieces), ",");
      }
    }
  }

  /** The first piece, then the others with a leading space. */
  function Respaced(pieces: seq<string>): (r: seq<string>)
    requires |pieces| >= 1
    ensures |r| == |pieces|
  {
    [pieces[0]] + Spaced(pieces[1..])
  }

  /** Joining with ", " is joining the respaced pieces with ",". */
  lemma JoinRespaced(pieces: seq<string>)
    requires |pieces| >= 1
    ensures Text.Join(Respaced(pieces), ",") == Text.Join(pieces, ", ")
  {
    if |pieces| > 1 {
      JoinRespacedLonger(pieces);
    }
  }

  lemma JoinRespacedLonger(pieces: seq<string>)
    requires |pieces| > 1
    ensures Text.Join([pieces[0]] + Spaced(pieces[1..]), ",") == Text.Join(pieces, ", ")
  {
    var first, tail := pieces[0], pieces[1..];
    var parts := [first] + Spaced(tail);
    var rest := Text.Join(tail, ", ");
    assert parts[0] == first && parts[1..] == Spaced(tail) && |parts| > 1;
    JoinCommaSpace(tail);
    assert Text.Join(parts, ",") == first + "," + Text.Join(Spaced(tail), ",");
    assert Text.Join(pieces, ", ") == first + ", " + rest;
    CommaThenSpace(first, rest);
  }

  lemma CommaThenSpace(a: string, b: string)
    ensures a + "," + (" " + b) == a + ", " + b
  {
    assert "," + " " == ", ";
  }

  /** Respacing adds no comma. */
  lemma RespacedNoComma(pieces: seq<string>)
    requires |pieces| >= 1
    requires forall i :: 0 <= i < |pieces| ==> ',' !in pieces[i]
    ensures forall i :: 0 <= i < |pieces| ==> ',' !in Respaced(pieces)[i]
  {
    var parts := Respaced(pieces);
    forall i | 0 <= i < |parts|
      ensures ',' !in parts[i]
    {
      if i > 0 {
        assert parts[i] == " " + pieces[i];
      }
    }
  }

  /** Splitting pieces joined with ", " on ',' gives the first piece and
      then the others with their leading space, provided no piece holds a
      comma. */
  lemma SplitCommaSpace(pieces: seq<string>)
    requires |pieces| >= 1
    requires forall i :: 0 <= i < |pieces| ==> ',' !in pieces[i]
    ensures Text.Split(Text.Join(pieces, ", "), ',') == Respaced(pieces)
  {
    JoinRespaced(pieces);
    RespacedNoComma(pieces);
    Text.SplitJoin(Respaced(pieces), ',');
  }

  /** The formatted text has one comma-separated piece per piece of the
      stored text: the first is the first day's label, every later one a
      space followed by its day's label. */
  lemma FormatOnePiecePerDay(availability: string)
    ensures |Text.Split(FormatAvailability(availability), ',')| == |Text.Split(availability, ',')|
    ensures Text.Split(FormatAvailability(availability), ',')[0] == Label(Text.Split(availability, ',')[0])
    ensures forall i :: 1 <= i < |Text.Split(availability, ',')| ==>
      Text.Split(FormatAvailability(availability), ',')[i] == " " + Label(Text.Split(availability, ',')[i])
  {
    var days := Text.Split(availability, ',');
    var labels := Labels(days);
    LabelsNoComma(days);
    SplitCommaSpace(labels);
    RespacedPieces(labels);
  }

  /** The labels of comma-free pieces are comma-free. */
  lemma LabelsNoComma(days: seq<string>)
    requires forall i :: 0 <= i < |days| ==> ',' !in days[i]
    ensures forall i :: 0 <= i < |days| ==> ',' !in Labels(days)[i]
  {
    forall i | 0 <= i < |days|
      ensures ',' !in Labels(days)[i]
    {
      assert ',' !in days[i];
    }
  }

  /** The respaced pieces: the first as it is, the others after a space. */
  lemma RespacedPieces(pieces: seq<string>)
    requires |pieces| >= 1
    ensures Respaced(pieces)[0] == pieces[0]
    ensures forall i :: 1 <= i < |pieces| ==> Respaced(pieces)[i] == " " + pieces[i]
  {
    var out := Respaced(pieces);
    forall i | 1 <= i < |pieces|
      ensures out[i] == " " + pieces[i]
    {
      assert out[i] == Spaced(pieces[1..])[i - 1];
    }
  }

  /** What the application form stores (the chosen days joined with ',') is
      shown as the days' labels joined with ", ". */
  lemma FormatStoredDays(days: seq<string>)
    requires |days| >= 1
    requires forall i :: 0 <= i < |days| ==> ',' !in days[i]
    ensures FormatAvailability(Text.Join(days, ",")) == Text.Join(Labels(days), ", ")
  {
    Text.SplitJoin(days, ',');
  }
}

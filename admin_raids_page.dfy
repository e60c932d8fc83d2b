/** The admin raids page: the bosses shown for the selected raid and
    difficulty, the killed/total summary per difficulty, the progress
    colours and the boss update it sends to the boss route. */
module AdminRaidsPage {

  import opened Common
  import Js
  import BossRoute

  datatype Boss = Boss(
    id: string,
    name: string,
    position: int,
    status: string,
    killDate: Option<string>,
    progress: int,
    difficulty: string)

  datatype Raid = Raid(id: string, name: string, bosses: seq<Boss>)

  function OfDifficulty(difficulty: string): Boss -> bool {
    (b: Boss) => b.difficulty == difficulty
  }

  function IsKilled(b: Boss): bool { b.status == "killed" }

  /** `selectedRaid?.bosses.filter(...) || []` (line 132). */
  function FilteredBosses(selected: Option<Raid>, difficulty: string): (r: seq<Boss>)
    ensures selected.None? ==> r == []
    ensures selected.Some? ==> r == Filter(selected.value.bosses, OfDifficulty(difficulty))
  {
    match selected
    case None => []
    case Some(raid) => Filter(raid.bosses, OfDifficulty(difficulty))
  }

  /** The killed/total figures of one difficulty (lines 253-255). */
  datatype Summary = Summary(killed: nat, total: nat)

  function SummaryOf(raid: Raid, difficulty: string): (s: Summary)
    ensures s.killed <= s.total
  {
    var bosses := Filter(raid.bosses, OfDifficulty(difficulty));
    Summary(Count(bosses, IsKilled), |bosses|)
  }

  /** The summary counts the very bosses the list shows for that
      difficulty: its total is their number and its killed figure the
      number of them with status 'killed'. */
  lemma SummaryMatchesList(raid: Raid, difficulty: string)
    ensures var shown := FilteredBosses(Some(raid), difficulty);
      && SummaryOf(raid, difficulty).total == |shown|
      && SummaryOf(raid, difficulty).killed == |Filter(shown, IsKilled)|
      && (forall i :: 0 <= i < |shown| ==> shown[i].difficulty == difficulty)
  {
    var shown := FilteredBosses(Some(raid), difficulty);
    assert forall i :: 0 <= i < |shown| ==> OfDifficulty(difficulty)(shown[i]);
  }

  /** `getProgressColor` (lines 125-130) on an integer percentage. */
  function ProgressColor(percentage: int): (c: string)
    ensures percentage >= 100 ==> c == "bg-green-500"
    ensures 50 <= percentage < 100 ==> c == "bg-yellow-500"
    ensures 0 < percentage < 50 ==> c == "bg-red-500"
    ensures percentage <= 0 ==> c == "bg-gray-600"
  {
    if percentage >= 100 then "bg-green-500"
    else if percentage >= 50 then "bg-yellow-500"
    else if percentage > 0 then "bg-red-500"
    else "bg-gray-600"
  }

  /** The same colour for the summary's percentage `killed / total * 100`
      (0 when there are no bosses), compared exactly rather than through a
      floating-point quotient. */
  function SummaryColor(s: Summary): (c: string)
  {
    if s.total == 0 then ProgressColor(0)
    else if 100 * s.killed >= 100 * s.total then "bg-green-500"
    else if 100 * s.killed >= 50 * s.total then "bg-yellow-500"
    else if s.killed > 0 then "bg-red-500"
    else "bg-gray-600"
  }

  /** Where the percentage is a whole number, the summary's colour is
      getProgressColor of it. */
  lemma SummaryColorIsProgressColor(s: Summary)
    requires s.total > 0 && (100 * s.killed) % s.total == 0
    ensures SummaryColor(s) == ProgressColor(100 * s.killed / s.total)
  {
    var p := 100 * s.killed / s.total;
    assert 100 * s.killed == p * s.total;
    if p >= 100 {
      Scale(s.total, 100, p);
    } else if p >= 50 {
      Scale(s.total, 50, p);
      Scale(s.total, p + 1, 100);
    } else if p > 0 {
      Scale(s.total, p + 1, 50);
    }
  }

  lemma Scale(k: nat, a: int, b: int)
    requires a <= b
    ensures a * k <= b * k
  {
    assert b * k - a * k == (b - a) * k;
  }

  /** A difficulty with every boss killed is green, one with none killed
      gray, and one with some killed never gray. */
  lemma SummaryColorExtremes(raid: Raid, difficulty: string)
    ensures var s := SummaryOf(raid, difficulty);
      && (s.total > 0 && s.killed == s.total ==> SummaryColor(s) == "bg-green-500")
      && (s.killed == 0 ==> SummaryColor(s) == "bg-gray-600")
      && (s.killed > 0 ==> SummaryColor(s) != "bg-gray-600")
  {
  }

  // ---------------------------------------------------------------------
  // handleBossUpdate

  /** The edit form: the status, the progress as typed and the kill date
      (empty when none). */
  datatype Form = Form(status: string, progress: string, killDate: string)

  /** `parseInt(text)`; NaN is serialised as null. */
  function ProgressValue(text: string): (v: Js.Value)
    ensures Js.ParseInt(text).Some? ==> v == Js.Num(Js.ParseInt(text).value)
    ensures Js.ParseInt(text).None? ==> v == Js.Null
  {
    match Js.ParseInt(text)
    case Some(n) => Js.Num(n)
    case None => Js.Null
  }

  /** The body `handleBossUpdate` (lines 67-98) sends for the boss being
      edited; None when no boss is being edited, and then nothing is sent.
      `today` is the date part of the current ISO timestamp. */
  function BossUpdate(editing: Option<Boss>, form: Form, today: string): (r: Option<BossRoute.Body>)
    ensures r.Some? <==> editing.Some?
    ensures r.Some? ==> r.value.id == Js.Str(editing.value.id) && r.value.status == Js.Str(form.status)
    ensures r.Some? ==> r.value.progress == ProgressValue(form.progress)
    ensures r.Some? && form.status == "killed" && form.killDate != "" ==> r.value.killDate == Js.Str(form.killDate)
    ensures r.Some? && form.status == "killed" && form.killDate == "" ==> r.value.killDate == Js.Str(today)
    ensures r.Some? && form.status != "killed" ==> r.value.killDate == Js.Null
  {
    match editing
    case None => None
    case Some(boss) =>
      var killDate := if form.status == "killed" then Js.Str(if form.killDate != "" then form.killDate else today) else Js.Null;
      Some(BossRoute.Body(Js.Str(boss.id), Js.Str(form.status), ProgressValue(form.progress), killDate))
  }

  /** The boss route stores the kill date the page sends: the form's date,
      or the page's today when the form had none; and for any other status
      neither side keeps a date. */
  lemma RouteKeepsPageKillDate(boss: Boss, form: Form, today: string, routeToday: string)
    requires today != ""
    ensures var body := BossUpdate(Some(boss), form, today).value;
      var stored := BossRoute.Prepare(body, routeToday);
      && (form.status == "killed" ==> stored.killDate == body.killDate && stored.progress == Js.Num(100))
      && (form.status != "killed" ==> stored.killDate == Js.Null)
  {
  }

  /** The form `handleEditBoss` (lines 100-108) fills in for a boss. */
  function EditForm(b: Boss): Form {
    Form(b.status, Js.ShowInt(b.progress), b.killDate.GetOr(""))
  }

  /** Saving an unchanged edit form sends the boss's own progress back. */
  lemma EditUnchangedKeepsProgress(b: Boss, today: string)
    ensures BossUpdate(Some(b), EditForm(b), today).value.progress == Js.Num(b.progress)
  {
    Js.ParseIntShowInt(b.progress);
  }
}

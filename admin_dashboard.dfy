/** The admin dashboard's figures: active members, pending applications,
    listed events and the killed/total progress of the first raid. */
module AdminDashboard {

  import opened Common
  import Text
  import Js

  /** The fields of the fetched rows the figures use. */
  datatype StatusRow = StatusRow(status: string)
  datatype Raid = Raid(bosses: Option<seq<StatusRow>>)

  /** The four JSON answers; a list is None when its field is missing. */
  datatype Answers = Answers(
    members: Option<seq<StatusRow>>,
    applications: Option<seq<StatusRow>>,
    events: Option<seq<StatusRow>>,
    raids: Option<seq<Raid>>)

  datatype Stats = Stats(totalMembers: nat, pendingApplications: nat, upcomingEvents: nat, raidProgress: string)

  /** The figures before anything is loaded. */
  const Initial := Stats(0, 0, 0, "0/0")

  function WithStatus(status: string): StatusRow -> bool {
    (r: StatusRow) => r.status == status
  }

  /** `list?.filter(r => r.status === status).length || 0`. */
  function CountWithStatus(list: Option<seq<StatusRow>>, status: string): (n: nat)
    ensures list.None? ==> n == 0
    ensures list.Some? ==> n == Count(list.value, WithStatus(status)) && n <= |list.value|
  {
    match list
    case None => 0
    case Some(rows) => Count(rows, WithStatus(status))
  }

  /** `list?.length || 0`. */
  function LengthOrZero<T>(list: Option<seq<T>>): (n: nat)
    ensures list.None? ==> n == 0
    ensures list.Some? ==> n == |list.value|
  {
    match list
    case None => 0
    case Some(rows) => |rows|
  }

  /** "killed/total" for a raid's bosses. */
  function Progress(raid: Raid): string
  {
    Js.ShowNat(CountWithStatus(raid.bosses, "killed")) + "/" + Js.ShowNat(LengthOrZero(raid.bosses))
  }

  /** The stats `loadDashboardData` (lines 43-95) sets; None stands for a
      fetch or a JSON parse that threw, which leaves the figures as they
      were. */
  function Load(answers: Option<Answers>): (s: Stats)
    ensures answers.None? ==> s == Initial
    ensures answers.Some? && answers.value.events.Some? ==> s.upcomingEvents == |answers.value.events.value|
    ensures answers.Some? && answers.value.events.None? ==> s.upcomingEvents == 0
  {
    match answers
    case None => Initial
    case Some(a) =>
      Stats(CountWithStatus(a.members, "active"),
            CountWithStatus(a.applications, "pending"),
            LengthOrZero(a.events),
            if a.raids.Some? && |a.raids.value| > 0 then Progress(a.raids.value[0]) else "0/0")
  }

  /** The member and application figures count exactly the rows with the
      status 'active' and 'pending', never more than were listed, and a
      missing list counts as 0. */
  lemma CountsByStatus(a: Answers)
    ensures var s := Load(Some(a));
      && (a.members.Some? ==> s.totalMembers == |Filter(a.members.value, WithStatus("active"))| <= |a.members.value|)
      && (a.members.None? ==> s.totalMembers == 0)
      && (a.applications.Some? ==> s.pendingApplications == |Filter(a.applications.value, WithStatus("pending"))| <= |a.applications.value|)
      && (a.applications.None? ==> s.pendingApplications == 0)
  {
  }

  /** The progress text reads back as two numbers: the first raid's killed
      bosses, then its bosses, the first never above the second; with no
      raid it is "0/0". */
  lemma ProgressReadsBack(a: Answers)
    ensures var p := Load(Some(a)).raidProgress;
      var parts := Text.Split(p, '/');
      && |parts| == 2
      && (a.raids.Some? && |a.raids.value| > 0 ==>
            var first := a.raids.value[0];
            && Js.ParseInt(parts[0]) == Some(CountWithStatus(first.bosses, "killed"))
            && Js.ParseInt(parts[1]) == Some(LengthOrZero(first.bosses))
            && CountWithStatus(first.bosses, "killed") <= LengthOrZero(first.bosses))
      && (a.raids.None? || |a.raids.value| == 0 ==> p == "0/0")
  {
    if a.raids.Some? && |a.raids.value| > 0 {
      var first := a.raids.value[0];
      var killed, total := CountWithStatus(first.bosses, "killed"), LengthOrZero(first.bosses);
      NumeralSplits(killed, total);
      Js.ParseIntShowInt(killed);
      Js.ParseIntShowInt(total);
    } else {
      assert Text.Split("0/0", '/') == ["0", "0"] by {
        Text.SplitJoin(["0", "0"], '/');
      }
    }
  }

  /** "k/t" splits on '/' into the two numerals. */
  lemma NumeralSplits(k: nat, t: nat)
    ensures Text.Split(Js.ShowNat(k) + "/" + Js.ShowNat(t), '/') == [Js.ShowNat(k), Js.ShowNat(t)]
  {
    var parts := [Js.ShowNat(k), Js.ShowNat(t)];
    assert '/' !in parts[0] by { assert !Js.IsDigit('/'); }
    assert '/' !in parts[1] by { assert !Js.IsDigit('/'); }
    assert Text.Join(parts, "/") == parts[0] + "/" + parts[1];
    Text.SplitJoin(parts, '/');
  }
}

/** `GET /api/member/weekly-overview`: the activities of the current raid
    week (which resets on Tuesday) for every main character.

    Time is modelled in the server's local time zone as whole milliseconds
    since the epoch; a calendar day is a day number, day 0 being Thursday
    1 January 1970. */
module WeeklyOverviewRoute {

  import opened Common
  import Ordering

  const MsPerDay := 86_400_000

  /** The local calendar day of an instant (`setHours(0, 0, 0, 0)` keeps
      exactly this). */
  function Day(ms: int): int
  {
    ms / MsPerDay
  }

  /** `Date.getDay()` of a day number: 0 is Sunday, 2 is Tuesday. */
  function Weekday(day: int): (w: int)
    ensures 0 <= w < 7
  {
    (day + 4) % 7
  }

  /** The number of days since the last Tuesday, `(dayOfWeek + 5) % 7`. */
  function DaysFromTuesday(dayOfWeek: int): (k: int)
    requires 0 <= dayOfWeek < 7
    ensures 0 <= k < 7
    ensures (dayOfWeek - k) % 7 == 2
  {
    (dayOfWeek + 5) % 7
  }

  /** Tuesday is day 0 of the raid week, Wednesday day 1, Sunday day 5 and
      Monday day 6. */
  lemma DaysFromTuesdayValues()
    ensures DaysFromTuesday(2) == 0
    ensures DaysFromTuesday(3) == 1
    ensures DaysFromTuesday(0) == 5
    ensures DaysFromTuesday(1) == 6
  {
  }

  /** `getCurrentWeekStart()` as a day number: today minus the days since
      Tuesday, at midnight. */
  function WeekStart(now: int): (start: int)
    ensures Weekday(start) == 2
    ensures start <= Day(now) < start + 7
  {
    var today := Day(now);
    var k := DaysFromTuesday(Weekday(today));
    today - k
  }

  /** Every instant of a raid week gives the same week start: the start is
      the unique Tuesday in the seven days ending today. */
  lemma {:induction false} WeekStartConstantOverWeek(a: int, b: int)
    requires WeekStart(a) <= Day(b) < WeekStart(a) + 7
    ensures WeekStart(b) == WeekStart(a)
  {
    var sa := WeekStart(a);
    var sb := WeekStart(b);
    TuesdaysApart(sa, sb);
  }

  /** Two Tuesdays are a multiple of seven days apart, so two of them less
      than seven days apart are the same day. */
  lemma TuesdaysApart(x: int, y: int)
    requires Weekday(x) == 2 && Weekday(y) == 2
    requires -7 < x - y < 7
    ensures x == y
  {
    assert (x + 4) % 7 == (y + 4) % 7;
    var qx := (x + 4) / 7;
    var qy := (y + 4) / 7;
    assert x - y == 7 * (qx - qy);
  }

  /** The week start of a Tuesday midnight is that Tuesday. */
  lemma WeekStartOfTuesday(day: int)
    requires Weekday(day) == 2
    ensures WeekStart(day * MsPerDay) == day
  {
    assert Day(day * MsPerDay) == day;
  }

  // ---------------------------------------------------------------------
  // The response

  /** The joined `character` of an activity row; only `is_main` matters. */
  datatype JoinedCharacter = JoinedCharacter(id: string, name: string, isMain: bool)

  datatype Activity = Activity(
    characterId: string,
    weekStart: int,
    mythicPlusRuns: int,
    character: Option<JoinedCharacter>)

  /** `a.character?.is_main`. */
  predicate IsMainActivity(a: Activity) {
    a.character.Some? && a.character.value.isMain
  }

  /** The query: the rows of the week, by `mythic_plus_runs` descending. */
  function FetchWeek(table: seq<Activity>, weekStart: int): (rows: seq<Activity>)
  {
    Ordering.SortBy(Filter(table, (a: Activity) => a.weekStart == weekStart),
                    (a: Activity) => Ordering.Key(-a.mythicPlusRuns, 0))
  }

  datatype Response =
    | Overview(weekStart: int, activities: seq<Activity>, totalActivities: nat)
    | Failure(status: int, error: string)

  /** The handler, given what the query returned: rows, None for a null
      `data`, and whether it reported an error. */
  function Get(now: int, data: Option<seq<Activity>>, queryFailed: bool): (r: Response)
    ensures queryFailed <==> r == Failure(500, "Failed to fetch weekly overview")
    ensures r.Overview? ==> r.weekStart == WeekStart(now)
    ensures r.Overview? ==> forall i :: 0 <= i < |r.activities| ==> IsMainActivity(r.activities[i])
    ensures r.Overview? && data.Some? ==> forall a :: a in data.value && IsMainActivity(a) ==> a in r.activities
    ensures r.Overview? && data.Some? ==> r.totalActivities == |data.value|
    ensures r.Overview? && data.None? ==> r.activities == [] && r.totalActivities == 0
  {
    if queryFailed then Failure(500, "Failed to fetch weekly overview")
    else
      match data
      case None => Overview(WeekStart(now), [], 0)
      case Some(rows) => Overview(WeekStart(now), Filter(rows, IsMainActivity), |rows|)
  }

  /** The total counts the rows before the main-character filter, so it
      bounds the number of activities returned. */
  lemma TotalBoundsActivities(now: int, data: Option<seq<Activity>>)
    ensures Get(now, data, false).Overview?
    ensures |Get(now, data, false).activities| <= Get(now, data, false).totalActivities
  {
  }

  /** The activities are the fetched rows of main characters, each as
      often as it was fetched, and the total counts every fetched row. */
  lemma ActivitiesAreMainRows(now: int, rows: seq<Activity>, a: Activity)
    ensures var r := Get(now, Some(rows), false);
      && r.totalActivities == |rows|
      && multiset(r.activities)[a] == (if IsMainActivity(a) then multiset(rows)[a] else 0)
  {
    FilterMultiplicity(rows, IsMainActivity, a);
  }

  /** The activities keep the order the query returned them in: splitting
      the fetched rows splits the response. */
  lemma ActivitiesInFetchedOrder(now: int, a: seq<Activity>, b: seq<Activity>)
    ensures Get(now, Some(a + b), false).activities
         == Get(now, Some(a), false).activities + Get(now, Some(b), false).activities
  {
    FilterAppend(a, b, IsMainActivity);
  }

  /** Fetched rows come ordered by mythic+ runs, most runs first, and are
      exactly the rows of that week. */
  lemma FetchWeekOrdered(table: seq<Activity>, weekStart: int)
    ensures Ordering.SortedBy(FetchWeek(table, weekStart), (a: Activity) => Ordering.Key(-a.mythicPlusRuns, 0))
    ensures forall i, j :: 0 <= i < j < |FetchWeek(table, weekStart)| ==>
      FetchWeek(table, weekStart)[i].mythicPlusRuns >= FetchWeek(table, weekStart)[j].mythicPlusRuns
    ensures multiset(FetchWeek(table, weekStart)) == multiset(Filter(table, (a: Activity) => a.weekStart == weekStart))
  {
    var key := (a: Activity) => Ordering.Key(-a.mythicPlusRuns, 0);
    var rows := Filter(table, (a: Activity) => a.weekStart == weekStart);
    Ordering.SortBySorted(rows, key);
    Ordering.SortByPermutes(rows, key);
  }
}
